/** Gregorian dates from day counts, and timestamps whose text sorts as the instants do. */
module Calendar {
  import opened Basics
  import opened Text

  datatype Date = Date(year: int, month: int, day: int)

  // ----- the calendar, by its rules -----

  /** RFC 3339, Appendix C. */
  predicate IsLeap(y: int) { y % 4 == 0 && (y % 100 != 0 || y % 400 == 0) }

  function MonthLength(y: int, m: int): int {
    if m == 2 then if IsLeap(y) then 29 else 28
    else if m == 4 || m == 6 || m == 9 || m == 11 then 30
    else 31
  }

  predicate IsDate(d: Date) {
    1 <= d.month <= 12 && 1 <= d.day <= MonthLength(d.year, d.month)
  }

  /** Leap years before `y`, counted from year 0's far side. */
  function LeapsBefore(y: int): int { (y - 1) / 4 - (y - 1) / 100 + (y - 1) / 400 }

  /** Days from 1970-01-01 to the first day of a year. */
  function YearStart(y: int): int { 365 * (y - 1970) + LeapsBefore(y) - LeapsBefore(1970) }

  /** Days of a year before a month. */
  function MonthStart(y: int, m: int): int
    requires 1 <= m <= 13
    decreases m
  {
    if m == 1 then 0 else MonthStart(y, m - 1) + MonthLength(y, m - 1)
  }

  function DayCount(d: Date): int
    requires IsDate(d)
  {
    YearStart(d.year) + MonthStart(d.year, d.month) + d.day - 1
  }

  /** The day count agrees with the leap rule: it starts at 1970, and every year is as long as its
      months. */
  lemma YearsAddUp(y: int)
    ensures YearStart(1970) == 0
    ensures YearStart(y + 1) == YearStart(y) + MonthStart(y, 13)
    ensures MonthStart(y, 13) == if IsLeap(y) then 366 else 365
  {
    MonthStarts(y);
    LeapStep(y);
  }

  lemma LeapStep(y: int)
    ensures LeapsBefore(y + 1) == LeapsBefore(y) + if IsLeap(y) then 1 else 0
  {
    NextByFour(y);
    NextByHundred(y);
    NextByFourHundred(y);
    Multiples(y);
  }

  lemma NextByFour(y: int)
    ensures y / 4 == (y - 1) / 4 + if y % 4 == 0 then 1 else 0
  {}

  lemma NextByHundred(y: int)
    ensures y / 100 == (y - 1) / 100 + if y % 100 == 0 then 1 else 0
  {}

  lemma NextByFourHundred(y: int)
    ensures y / 400 == (y - 1) / 400 + if y % 400 == 0 then 1 else 0
  {}

  lemma Multiples(y: int)
    ensures y % 100 == 0 ==> y % 4 == 0
    ensures y % 400 == 0 ==> y % 100 == 0
  {
    if y % 100 == 0 {
      HundredsAreFours(y / 100);
    }
    if y % 400 == 0 {
      FourHundredsAreHundreds(y / 400);
    }
  }

  lemma HundredsAreFours(q: int)
    ensures 100 * q % 4 == 0
  {
    assert 100 * q == 4 * (25 * q);
  }

  lemma FourHundredsAreHundreds(q: int)
    ensures 400 * q % 100 == 0
  {
    assert 400 * q == 100 * (4 * q);
  }

  lemma MonthStarts(y: int)
    ensures var leap := if IsLeap(y) then 1 else 0;
            && MonthStart(y, 1) == 0 && MonthStart(y, 2) == 31
            && MonthStart(y, 3) == 59 + leap && MonthStart(y, 4) == 90 + leap && MonthStart(y, 5) == 120 + leap
            && MonthStart(y, 6) == 151 + leap && MonthStart(y, 7) == 181 + leap && MonthStart(y, 8) == 212 + leap
            && MonthStart(y, 9) == 243 + leap && MonthStart(y, 10) == 273 + leap && MonthStart(y, 11) == 304 + leap
            && MonthStart(y, 12) == 334 + leap && MonthStart(y, 13) == 365 + leap
  {
    hide IsLeap;
    assert MonthStart(y, 2) == 31;
    assert MonthStart(y, 4) == MonthStart(y, 3) + 31;
    assert MonthStart(y, 6) == MonthStart(y, 5) + 31;
    assert MonthStart(y, 8) == MonthStart(y, 7) + 31;
    assert MonthStart(y, 10) == MonthStart(y, 9) + 30;
    assert MonthStart(y, 12) == MonthStart(y, 11) + 30;
  }

  // ----- the program's arithmetic -----

  /** Division as the program's signed integers do it, towards zero. */
  function Truncating(a: int, b: int): int
    requires b > 0
  {
    if a >= 0 then a / b else -((-a) / b)
  }

  /** The year of a 400-year era that a day of it falls in, years starting in March. */
  function YearIn(doe: int): int { (doe - doe / 1460 + doe / 36524 - doe / 146096) / 365 }

  function CivilFromDays(days: int): Date {
    var z := days + 719468;
    var era := Truncating(if z >= 0 then z else z - 146096, 146097);
    var doe := z - era * 146097;
    var yoe := YearIn(doe);
    FromMarch(yoe + era * 400, doe - (365 * yoe + yoe / 4 - yoe / 100))
  }

  /** The date of a day of the year that starts on March 1 of year `y`. */
  function FromMarch(y: int, doy: int): Date {
    var mp := (5 * doy + 2) / 153;
    var d := doy - (153 * mp + 2) / 5 + 1;
    var m := if mp < 10 then mp + 3 else mp - 9;
    Date(if m <= 2 then y + 1 else y, m, d)
  }

  /** Days from March 1 of year 0 to March 1 of a year. */
  function MarchStart(y: int): int { 365 * y + y / 4 - y / 100 + y / 400 }

  lemma EraIsFloor(z: int)
    ensures Truncating(if z >= 0 then z else z - 146096, 146097) == z / 146097
  {}

  /** A day of a 400-year era: century `c`, four-year span `q`, year `r` of the span, day `j`. */
  predicate InEra(c: int, q: int, r: int, j: int) {
    && 0 <= c < 4 && 0 <= q < 25 && 0 <= r < 4
    && 0 <= j <= (if r == 3 && (q < 24 || c == 3) then 365 else 364)
  }

  function DayOfEra(c: int, q: int, r: int, j: int): int { 36524 * c + 1461 * q + 365 * r + j }

  lemma EraSplits(doe: int) returns (c: int, q: int, r: int, j: int)
    requires 0 <= doe < 146097
    ensures InEra(c, q, r, j) && doe == DayOfEra(c, q, r, j)
  {
    c := if doe / 36524 > 3 then 3 else doe / 36524;
    var inCentury := doe - 36524 * c;
    q := if inCentury / 1461 > 24 then 24 else inCentury / 1461;
    var inSpan := inCentury - 1461 * q;
    r := if inSpan / 365 > 3 then 3 else inSpan / 365;
    j := inSpan - 365 * r;
  }

  lemma Quotient(x: int, n: int, k: int)
    requires n > 0 && k * n <= x < k * n + n
    ensures x / n == k
  {
    var q := x / n;
    assert x == n * q + x % n;
    if q < k {
      Scaled(n, q + 1, k);
    } else if k < q {
      Scaled(n, k + 1, q);
    }
  }

  lemma Scaled(n: int, a: int, b: int)
    requires n > 0 && a <= b
    ensures n * a <= n * b
  {}

  lemma QuotientsOfEra(c: int, q: int, r: int, j: int)
    requires InEra(c, q, r, j)
    ensures var doe := DayOfEra(c, q, r, j);
            && doe / 1460 == 25 * c + q + (if 24 * c + q + 365 * r + j >= 1460 then 1 else 0)
            && doe / 36524 == (if doe == 146096 then 4 else c)
            && doe / 146096 == (if doe == 146096 then 1 else 0)
  {
    var doe := DayOfEra(c, q, r, j);
    Quotient(doe, 1460, 25 * c + q + if 24 * c + q + 365 * r + j >= 1460 then 1 else 0);
    Quotient(doe, 36524, if doe == 146096 then 4 else c);
  }

  lemma MarchYears(c: int, q: int, r: int)
    requires 0 <= c < 4 && 0 <= q < 25 && 0 <= r < 4
    ensures var k := 100 * c + 4 * q + r;
            && 0 <= k < 400 && MarchStart(k) == DayOfEra(c, q, r, 0)
            && MarchStart(k) == 365 * k + k / 4 - k / 100
            && MarchStart(k + 1) == MarchStart(k) + if r == 3 && (q < 24 || c == 3) then 366 else 365
  {
    var k := 100 * c + 4 * q + r;
    Quotient(k, 4, 25 * c + q);
    Quotient(k, 100, c);
    Quotient(k + 1, 4, 25 * c + q + if r == 3 then 1 else 0);
    Quotient(k + 1, 100, c + if r == 3 && q == 24 then 1 else 0);
  }

  lemma YearHasDay(c: int, q: int, r: int, j: int)
    requires InEra(c, q, r, j)
    ensures var k := 100 * c + 4 * q + r;
            && 0 <= k < 400 && MarchStart(k) <= DayOfEra(c, q, r, j) < MarchStart(k + 1)
            && MarchStart(k) == 365 * k + k / 4 - k / 100
  {
    hide MarchStart;
    MarchYears(c, q, r);
  }

  lemma DaysAreOfTheYear(c: int, q: int, r: int, j: int, by1460: int, by36524: int, by146096: int)
    requires InEra(c, q, r, j)
    requires by1460 == 25 * c + q + if 24 * c + q + 365 * r + j >= 1460 then 1 else 0
    requires by36524 == if DayOfEra(c, q, r, j) == 146096 then 4 else c
    requires by146096 == if DayOfEra(c, q, r, j) == 146096 then 1 else 0
    ensures var k := 100 * c + 4 * q + r;
            365 * k <= DayOfEra(c, q, r, j) - by1460 + by36524 - by146096 < 365 * k + 365
  {}

  lemma YearInEra(c: int, q: int, r: int, j: int)
    requires InEra(c, q, r, j)
    ensures YearIn(DayOfEra(c, q, r, j)) == 100 * c + 4 * q + r
  {
    QuotientsOfEra(c, q, r, j);
    hide DayOfEra, InEra;
    var doe := DayOfEra(c, q, r, j);
    var by1460, by36524, by146096 := doe / 1460, doe / 36524, doe / 146096;
    DaysAreOfTheYear(c, q, r, j, by1460, by36524, by146096);
    Quotient(doe - by1460 + by36524 - by146096, 365, 100 * c + 4 * q + r);
  }

  /** The year of the era is the one whose days, from March on, include the day. */
  lemma YearOfEra(doe: int)
    requires 0 <= doe < 146097
    ensures var yoe := YearIn(doe);
            && 0 <= yoe < 400 && MarchStart(yoe) <= doe < MarchStart(yoe + 1)
            && MarchStart(yoe) == 365 * yoe + yoe / 4 - yoe / 100
  {
    hide *;
    var c, q, r, j := EraSplits(doe);
    YearInEra(c, q, r, j);
    YearHasDay(c, q, r, j);
  }

  /** Days of a March-based year before its months. */
  function MarchMonth(mp: int): int { (153 * mp + 2) / 5 }

  lemma MonthOfYear(doy: int)
    requires 0 <= doy <= 365
    ensures var mp := (5 * doy + 2) / 153;
            && 0 <= mp < 12 && MarchMonth(mp) <= doy
            && (mp < 11 ==> doy < MarchMonth(mp + 1))
  {}

  lemma MarchMonths(y: int, mp: int)
    requires 0 <= mp < 12
    ensures mp < 10 ==> MonthStart(y, mp + 3) == MonthStart(y, 3) + MarchMonth(mp)
                        && MonthLength(y, mp + 3) == MarchMonth(mp + 1) - MarchMonth(mp)
    ensures mp >= 10 ==> MonthStart(y, mp - 9) == MarchMonth(mp) - 306
    ensures mp == 10 ==> MonthLength(y, 1) == MarchMonth(11) - MarchMonth(10)
  {
    MonthStarts(y);
    hide IsLeap;
  }

  lemma MarchAndJanuary(y: int)
    ensures YearStart(y) + MonthStart(y, 3) == MarchStart(y) - 719468
    ensures YearStart(y + 1) == MarchStart(y) - 719468 + 306
    ensures MarchStart(y + 1) == MarchStart(y) + 337 + MonthLength(y + 1, 2)
  {
    MonthStarts(y);
    LeapStep(y);
    LeapStep(y + 1);
  }

  lemma MarchOfEra(yoe: int, era: int)
    requires 0 <= yoe < 400
    ensures MarchStart(yoe + 400 * era) == MarchStart(yoe) + 146097 * era
    ensures MarchStart(yoe + 1 + 400 * era) == MarchStart(yoe + 1) + 146097 * era
  {
    Shifted(yoe, era);
    Shifted(yoe + 1, era);
  }

  lemma Shifted(y: int, era: int)
    ensures (y + 400 * era) / 4 == y / 4 + 100 * era
    ensures (y + 400 * era) / 100 == y / 100 + 4 * era
    ensures (y + 400 * era) / 400 == y / 400 + era
  {}

  lemma FromMarchIsTheDate(y: int, doy: int)
    requires 0 <= doy && MarchStart(y) + doy < MarchStart(y + 1)
    ensures IsDate(FromMarch(y, doy)) && DayCount(FromMarch(y, doy)) == MarchStart(y) - 719468 + doy
  {
    hide MarchStart, IsLeap, LeapsBefore, YearStart, MonthStart;
    MarchAndJanuary(y);
    MonthOfYear(doy);
    var mp := (5 * doy + 2) / 153;
    MarchMonths(y, mp);
    MarchMonths(y + 1, mp);
  }

  lemma SplitEra(z: int, era: int, doe: int, yoe: int)
    requires era == z / 146097 && doe == z - era * 146097
    requires yoe == YearIn(doe)
    ensures var y := yoe + era * 400;
            var doy := doe - (365 * yoe + yoe / 4 - yoe / 100);
            0 <= doy && MarchStart(y) + doy == z && z < MarchStart(y + 1)
  {
    hide MarchStart, YearIn;
    YearOfEra(doe);
    MarchOfEra(yoe, era);
  }

  lemma CivilSteps(days: int, z: int, era: int, doe: int, yoe: int, y: int, doy: int)
    requires z == days + 719468
    requires era == Truncating(if z >= 0 then z else z - 146096, 146097)
    requires doe == z - era * 146097
    requires yoe == YearIn(doe)
    requires y == yoe + era * 400
    requires doy == doe - (365 * yoe + yoe / 4 - yoe / 100)
    ensures CivilFromDays(days) == FromMarch(y, doy)
  {
    hide FromMarch, Truncating, YearIn;
  }

  /** `civil_from_days` gives a date of the calendar whose day count is its argument. */
  lemma CivilIsTheDate(days: int)
    ensures IsDate(CivilFromDays(days)) && DayCount(CivilFromDays(days)) == days
  {
    hide *;
    var z := days + 719468;
    EraIsFloor(z);
    var era := Truncating(if z >= 0 then z else z - 146096, 146097);
    var doe := z - era * 146097;
    var yoe := YearIn(doe);
    var y := yoe + era * 400;
    var doy := doe - (365 * yoe + yoe / 4 - yoe / 100);
    CivilSteps(days, z, era, doe, yoe, y, doy);
    SplitEra(z, era, doe, yoe);
    FromMarchIsTheDate(y, doy);
  }

  // ----- both ways -----

  predicate Before(a: Date, b: Date) {
    || a.year < b.year
    || (a.year == b.year && (a.month < b.month || (a.month == b.month && a.day < b.day)))
  }

  lemma {:induction false} YearsAreOrdered(y: int, z: int)
    requires y < z
    ensures YearStart(y) + MonthStart(y, 13) <= YearStart(z)
    decreases z - y
  {
    hide YearStart, MonthStart;
    YearsAddUp(y);
    if y + 1 < z {
      YearsAddUp(z - 1);
      YearsAreOrdered(y, z - 1);
    }
  }

  lemma {:induction false} MonthsAreOrdered(y: int, m: int, n: int)
    requires 1 <= m < n <= 13
    ensures MonthStart(y, m) + MonthLength(y, m) <= MonthStart(y, n)
    decreases n
  {
    if m + 1 < n {
      MonthsAreOrdered(y, m, n - 1);
    }
  }

  lemma EarlierIsFewer(a: Date, b: Date)
    requires IsDate(a) && IsDate(b) && Before(a, b)
    ensures DayCount(a) < DayCount(b)
  {
    hide YearStart;
    if a.year < b.year {
      YearsAreOrdered(a.year, b.year);
      MonthsAreOrdered(a.year, a.month, 13);
      if b.month > 1 {
        MonthsAreOrdered(b.year, 1, b.month);
      }
    } else if a.month < b.month {
      MonthsAreOrdered(a.year, a.month, b.month);
    }
  }

  /** Days count as dates follow one another. */
  lemma DatesInOrder(a: Date, b: Date)
    requires IsDate(a) && IsDate(b)
    ensures DayCount(a) < DayCount(b) <==> Before(a, b)
    ensures DayCount(a) == DayCount(b) <==> a == b
  {
    hide DayCount, IsDate;
    if Before(a, b) {
      EarlierIsFewer(a, b);
    } else if Before(b, a) {
      EarlierIsFewer(b, a);
    } else {
      assert a == b;
    }
  }

  /** No other date has the day count `civil_from_days` was given, and it undoes the day count. */
  lemma CivilInverts(d: Date, days: int)
    requires IsDate(d)
    ensures CivilFromDays(DayCount(d)) == d
    ensures DayCount(d) == days <==> CivilFromDays(days) == d
  {
    CivilIsTheDate(DayCount(d));
    DatesInOrder(CivilFromDays(DayCount(d)), d);
    CivilIsTheDate(days);
    hide *;
  }

  // ----- the text of an instant -----

  /** A number in at least `width` digits, zeros in front. */
  function Padded(n: nat, width: nat): string {
    var s := Decimal(n);
    if |s| < width then Repeat('0', width - |s|) + s else s
  }

  /** `format!("{n:0width}")` of a signed number. */
  function PaddedSigned(n: int, width: nat): string {
    if n >= 0 then Padded(n, width) else "-" + Padded(-n, if width == 0 then 0 else width - 1)
  }

  datatype Time = Time(date: Date, hour: nat, minute: nat, second: nat)

  function TimeOf(secs: nat): Time {
    var rest := secs % 86400;
    Time(CivilFromDays(secs / 86400), rest / 3600, rest % 3600 / 60, rest % 60)
  }

  /** The text of a moment `secs` seconds after the epoch. */
  function FormatUtc(secs: nat): string {
    var t := TimeOf(secs);
    PaddedSigned(t.date.year, 4) + "-" + PaddedSigned(t.date.month, 2) + "-" + PaddedSigned(t.date.day, 2)
    + "T" + Padded(t.hour, 2) + ":" + Padded(t.minute, 2) + ":" + Padded(t.second, 2) + "Z"
  }

  // ----- text order -----

  /** Lexicographic order, as strings compare. */
  predicate Less(a: string, b: string) {
    if a == "" then b != ""
    else b != "" && (a[0] < b[0] || (a[0] == b[0] && Less(a[1..], b[1..])))
  }

  lemma {:induction false} LessInParts(a: string, b: string, x: string, y: string)
    requires |a| == |b|
    ensures Less(a + x, b + y) <==> Less(a, b) || (a == b && Less(x, y))
  {
    if a == "" {
      assert a + x == x && b + y == y;
    } else {
      assert (a + x)[1..] == a[1..] + x && (b + y)[1..] == b[1..] + y;
      LessInParts(a[1..], b[1..], x, y);
    }
  }

  lemma {:induction false} LessIsIrreflexive(a: string)
    ensures !Less(a, a)
  {
    if a != "" {
      LessIsIrreflexive(a[1..]);
    }
  }

  /** The last `width` decimal digits of a number. */
  function Digits(n: nat, width: nat): (s: string)
    ensures |s| == width
  {
    if width == 0 then "" else Digits(n / 10, width - 1) + [Digit(n % 10)]
  }

  function Power10(width: nat): nat { if width == 0 then 1 else 10 * Power10(width - 1) }

  lemma {:induction false} DigitsOfZero(width: nat)
    ensures Digits(0, width) == Repeat('0', width)
  {
    if width > 0 {
      DigitsOfZero(width - 1);
      assert 0 / 10 == 0;
    }
  }

  lemma {:induction false} PaddedIsDigits(n: nat, width: nat)
    requires 1 <= width && n < Power10(width)
    ensures Padded(n, width) == Digits(n, width)
  {
    DigitsOfZero(width - 1);
    if n < 10 {
      assert n / 10 == 0 && n % 10 == n;
    } else {
      assert width > 1;
      PaddedIsDigits(n / 10, width - 1);
      assert Decimal(n) == Decimal(n / 10) + [Digit(n % 10)];
    }
  }

  lemma {:induction false} DigitsInOrder(n: nat, m: nat, width: nat)
    requires n < Power10(width) && m < Power10(width)
    ensures Less(Digits(n, width), Digits(m, width)) <==> n < m
    ensures Digits(n, width) == Digits(m, width) <==> n == m
  {
    if width > 0 {
      var a, b := Digits(n / 10, width - 1), Digits(m / 10, width - 1);
      var x, y := [Digit(n % 10)], [Digit(m % 10)];
      DigitsInOrder(n / 10, m / 10, width - 1);
      LessInParts(a, b, x, y);
      assert Less(x, y) <==> n % 10 < m % 10;
      assert (a + x)[..width - 1] == a && (b + y)[..width - 1] == b;
      assert (a + x)[width - 1] == x[0] && (b + y)[width - 1] == y[0];
    }
  }

  /** Zero-padded numbers that fit their width sort as numbers do. */
  lemma PaddedInOrder(n: nat, m: nat, width: nat)
    requires 1 <= width && n < Power10(width) && m < Power10(width)
    ensures |Padded(n, width)| == width == |Padded(m, width)|
    ensures Less(Padded(n, width), Padded(m, width)) <==> n < m
    ensures Padded(n, width) == Padded(m, width) <==> n == m
  {
    PaddedIsDigits(n, width);
    PaddedIsDigits(m, width);
    DigitsInOrder(n, m, width);
  }

  /** One more field of fixed width, with what follows it. */
  lemma FieldInOrder(n: nat, m: nat, width: nat, x: string, y: string)
    requires 1 <= width && n < Power10(width) && m < Power10(width)
    ensures Less(Padded(n, width) + x, Padded(m, width) + y) <==> n < m || (n == m && Less(x, y))
  {
    PaddedInOrder(n, m, width);
    LessInParts(Padded(n, width), Padded(m, width), x, y);
    LessIsIrreflexive(Padded(n, width));
  }

  lemma SeparatorInOrder(c: string, x: string, y: string)
    ensures Less(c + x, c + y) <==> Less(x, y)
  {
    LessInParts(c, c, x, y);
    LessIsIrreflexive(c);
  }

  predicate TimeBefore(a: Time, b: Time) {
    || Before(a.date, b.date)
    || (a.date == b.date
        && (a.hour < b.hour
            || (a.hour == b.hour && (a.minute < b.minute || (a.minute == b.minute && a.second < b.second)))))
  }

  predicate IsTime(t: Time) {
    IsDate(t.date) && t.hour < 24 && t.minute < 60 && t.second < 60
  }

  lemma ClockInOrder(s1: nat, s2: nat)
    ensures s1 % 86400 / 3600 < 24 && s1 % 86400 % 3600 / 60 < 60
    ensures var a, b := s1 % 86400, s2 % 86400;
            a < b <==> || a / 3600 < b / 3600
                       || (a / 3600 == b / 3600
                           && (a % 3600 / 60 < b % 3600 / 60
                               || (a % 3600 / 60 == b % 3600 / 60 && a % 60 < b % 60)))
  {
    ClockSplits(s1 % 86400);
    ClockSplits(s2 % 86400);
  }

  lemma ClockSplits(a: nat)
    requires a < 86400
    ensures a == 3600 * (a / 3600) + 60 * (a % 3600 / 60) + a % 60
    ensures a / 3600 < 24 && a % 3600 / 60 < 60
  {
    var h := a / 3600;
    var r := a % 3600;
    assert a == 3600 * h + r;
    var q := r / 60;
    assert a == 60 * (60 * h + q) + r % 60;
    Quotient(a, 60, 60 * h + q);
  }

  /** Later moments have later dates and clock readings. */
  lemma TimesInOrder(s1: nat, s2: nat)
    ensures IsTime(TimeOf(s1)) && IsTime(TimeOf(s2))
    ensures TimeBefore(TimeOf(s1), TimeOf(s2)) <==> s1 < s2
  {
    hide CivilFromDays, DayCount, IsDate, Before;
    CivilIsTheDate(s1 / 86400);
    CivilIsTheDate(s2 / 86400);
    DatesInOrder(CivilFromDays(s1 / 86400), CivilFromDays(s2 / 86400));
    ClockInOrder(s1, s2);
    ClockInOrder(s2, s1);
  }

  function TimeText(t: Time): string
    requires t.date.year >= 0 && t.date.month >= 0 && t.date.day >= 0
  {
    Padded(t.date.year, 4)
    + ("-" + (Padded(t.date.month, 2)
    + ("-" + (Padded(t.date.day, 2)
    + ("T" + (Padded(t.hour, 2)
    + (":" + (Padded(t.minute, 2)
    + (":" + (Padded(t.second, 2) + "Z"))))))))))
  }

  lemma TextInOrder(a: Time, b: Time)
    requires IsTime(a) && IsTime(b) && 0 <= a.date.year <= 9999 && 0 <= b.date.year <= 9999
    ensures Less(TimeText(a), TimeText(b)) <==> TimeBefore(a, b)
  {
    hide Padded, Less;
    assert Power10(2) == 100 && Power10(4) == 10000;
    hide Power10;
    var x6, y6 := Padded(a.second, 2) + "Z", Padded(b.second, 2) + "Z";
    FieldInOrder(a.second, b.second, 2, "Z", "Z");
    LessIsIrreflexive("Z");
    var x5, y5 := Padded(a.minute, 2) + (":" + x6), Padded(b.minute, 2) + (":" + y6);
    FieldInOrder(a.minute, b.minute, 2, ":" + x6, ":" + y6);
    SeparatorInOrder(":", x6, y6);
    var x4, y4 := Padded(a.hour, 2) + (":" + x5), Padded(b.hour, 2) + (":" + y5);
    FieldInOrder(a.hour, b.hour, 2, ":" + x5, ":" + y5);
    SeparatorInOrder(":", x5, y5);
    var x3, y3 := Padded(a.date.day, 2) + ("T" + x4), Padded(b.date.day, 2) + ("T" + y4);
    FieldInOrder(a.date.day, b.date.day, 2, "T" + x4, "T" + y4);
    SeparatorInOrder("T", x4, y4);
    var x2, y2 := Padded(a.date.month, 2) + ("-" + x3), Padded(b.date.month, 2) + ("-" + y3);
    FieldInOrder(a.date.month, b.date.month, 2, "-" + x3, "-" + y3);
    SeparatorInOrder("-", x3, y3);
    FieldInOrder(a.date.year, b.date.year, 4, "-" + x2, "-" + y2);
    SeparatorInOrder("-", x2, y2);
  }

  /** The first second of year 10000. */
  const YEAR_10000: nat := 253402300800

  lemma YearsOfSeconds(secs: nat)
    ensures 1970 <= TimeOf(secs).date.year
    ensures TimeOf(secs).date.year <= 9999 <==> secs < YEAR_10000
  {
    var d := CivilFromDays(secs / 86400);
    CivilIsTheDate(secs / 86400);
    hide CivilFromDays;
    assert DayCount(Date(10000, 1, 1)) == 2932897;
    assert DayCount(Date(1970, 1, 1)) == 0;
    DatesInOrder(d, Date(10000, 1, 1));
    DatesInOrder(d, Date(1970, 1, 1));
    hide DayCount;
  }

  lemma FormatIsTimeText(secs: nat)
    ensures IsTime(TimeOf(secs)) && TimeOf(secs).date.year >= 1970
    ensures FormatUtc(secs) == TimeText(TimeOf(secs))
  {
    TimesInOrder(secs, secs);
    YearsOfSeconds(secs);
    hide Padded, TimeOf;
  }

  /** Through year 9999, timestamps sort as text exactly as the moments follow one another. */
  lemma TextSortsAsTime(s1: nat, s2: nat)
    requires s1 < YEAR_10000 && s2 < YEAR_10000
    ensures Less(FormatUtc(s1), FormatUtc(s2)) <==> s1 < s2
    ensures FormatUtc(s1) == FormatUtc(s2) <==> s1 == s2
  {
    hide *;
    YearsOfSeconds(s1);
    YearsOfSeconds(s2);
    FormatIsTimeText(s1);
    FormatIsTimeText(s2);
    TextInOrder(TimeOf(s1), TimeOf(s2));
    TextInOrder(TimeOf(s2), TimeOf(s1));
    TimesInOrder(s1, s2);
    TimesInOrder(s2, s1);
    LessIsIrreflexive(FormatUtc(s1));
  }

  lemma {:induction false} SameFirstDigit(n: nat)
    requires n >= 1
    ensures Decimal(n)[0] == Digit(if n < 10 then n else Decimal(n / 10)[0] as int - 48)
  {}

  lemma FirstDigits()
    ensures |Decimal(9999)| == 4 && Decimal(9999)[0] == '9'
    ensures |Decimal(10000)| == 5 && Decimal(10000)[0] == '1'
  {
    SameFirstDigit(9999);
    SameFirstDigit(999);
    SameFirstDigit(99);
    SameFirstDigit(10000);
    SameFirstDigit(1000);
    SameFirstDigit(100);
    SameFirstDigit(10);
  }

  lemma TextStartsWithYear(secs: nat, year: nat)
    requires TimeOf(secs).date.year == year && |Decimal(year)| >= 4
    ensures FormatUtc(secs) != "" && FormatUtc(secs)[0] == Decimal(year)[0]
  {
    hide Decimal, TimeOf;
    FormatIsTimeText(secs);
    hide FormatUtc;
    assert Padded(year, 4) == Decimal(year);
  }

  lemma YearsTurn()
    ensures TimeOf(YEAR_10000).date.year == 10000 && TimeOf(YEAR_10000 - 1).date.year == 9999
  {
    hide CivilFromDays;
    assert IsDate(Date(10000, 1, 1)) && DayCount(Date(10000, 1, 1)) == 2932897;
    assert IsDate(Date(9999, 12, 31)) && DayCount(Date(9999, 12, 31)) == 2932896;
    hide DayCount, IsDate;
    CivilInverts(Date(10000, 1, 1), 2932897);
    CivilInverts(Date(9999, 12, 31), 2932896);
  }

  /** And no further: the next second's text sorts before the last one of year 9999. */
  lemma TextOrderEndsThere()
    ensures Less(FormatUtc(YEAR_10000), FormatUtc(YEAR_10000 - 1))
  {
    hide TimeOf, FormatUtc, Decimal;
    YearsTurn();
    FirstDigits();
    TextStartsWithYear(YEAR_10000, 10000);
    TextStartsWithYear(YEAR_10000 - 1, 9999);
  }

  /** Exactly: the texts of all moments up to `last` sort as the moments do exactly if `last` is within year
      9999. */
  lemma TextOrderLimit(last: nat)
    ensures (forall s1: nat, s2: nat :: s1 <= last && s2 <= last ==> (Less(FormatUtc(s1), FormatUtc(s2)) <==> s1 < s2))
            <==> last < YEAR_10000
  {
    hide FormatUtc, Less;
    if last < YEAR_10000 {
      forall s1: nat, s2: nat | s1 <= last && s2 <= last ensures Less(FormatUtc(s1), FormatUtc(s2)) <==> s1 < s2 {
        TextSortsAsTime(s1, s2);
      }
    } else {
      TextOrderEndsThere();
    }
  }

  // ----- reading a timestamp -----

  lemma {:induction false} DigitsInvert(n: nat, width: nat)
    requires n < Power10(width)
    ensures DecimalValue(Digits(n, width)) == n
  {
    if width > 0 {
      DigitsInvert(n / 10, width - 1);
      var s := Digits(n, width);
      assert s[..width - 1] == Digits(n / 10, width - 1);
    }
  }

  lemma FieldReads(n: nat, width: nat, rest: string)
    requires 1 <= width && n < Power10(width)
    ensures var s := Padded(n, width) + rest;
            && |s| == width + |rest| && DecimalValue(s[..width]) == n && s[width..] == rest
  {
    PaddedIsDigits(n, width);
    DigitsInvert(n, width);
    hide Padded, Digits, DecimalValue;
    assert (Padded(n, width) + rest)[..width] == Padded(n, width);
  }

  /** What a text of the form `YYYY-MM-DDThh:mm:ssZ` says. */
  predicate Says(s: string, t: Time) {
    && |s| == 20
    && s[4] == '-' && s[7] == '-' && s[10] == 'T' && s[13] == ':' && s[16] == ':' && s[19] == 'Z'
    && DecimalValue(s[..4]) == t.date.year && DecimalValue(s[5..7]) == t.date.month && DecimalValue(s[8..10]) == t.date.day
    && DecimalValue(s[11..13]) == t.hour && DecimalValue(s[14..16]) == t.minute && DecimalValue(s[17..19]) == t.second
  }

  /** A field and its separator at a place in a text, and what follows them. */
  lemma FieldAt(s: string, at: nat, n: nat, width: nat, c: string, rest: string)
    requires 1 <= width && n < Power10(width) && |c| == 1 && at <= |s|
    requires s[at..] == Padded(n, width) + (c + rest)
    ensures |s| == at + width + 1 + |rest|
    ensures DecimalValue(s[at..at + width]) == n && s[at + width] == c[0] && s[at + width + 1..] == rest
  {
    FieldReads(n, width, c + rest);
    hide Padded, DecimalValue, Power10;
    var tail := s[at..];
    assert tail[..width] == s[at..at + width];
    assert tail[width..] == c + rest && s[at + width..] == c + rest;
    assert s[at + width..][0] == c[0] && s[at + width..][1..] == rest;
  }

  lemma TimeTextSays(t: Time)
    requires IsTime(t) && 0 <= t.date.year <= 9999
    ensures Says(TimeText(t), t)
  {
    var s := TimeText(t);
    var clock := Padded(t.hour, 2) + (":" + (Padded(t.minute, 2) + (":" + (Padded(t.second, 2) + "Z"))));
    hide Padded, DecimalValue;
    DateAt(s, t.date, clock);
    ClockAt(s, 11, t);
  }

  lemma DateAt(s: string, d: Date, rest: string)
    requires IsDate(d) && 0 <= d.year <= 9999
    requires s == Padded(d.year, 4) + ("-" + (Padded(d.month, 2) + ("-" + (Padded(d.day, 2) + ("T" + rest)))))
    ensures |s| == 11 + |rest| && s[11..] == rest && s[4] == '-' && s[7] == '-' && s[10] == 'T'
    ensures DecimalValue(s[..4]) == d.year && DecimalValue(s[5..7]) == d.month && DecimalValue(s[8..10]) == d.day
  {
    assert Power10(2) == 100 && Power10(4) == 10000;
    hide Padded, DecimalValue, Power10;
    var s3 := Padded(d.day, 2) + ("T" + rest);
    var s2 := Padded(d.month, 2) + ("-" + s3);
    assert s[0..] == s && s[0..4] == s[..4];
    FieldAt(s, 0, d.year, 4, "-", s2);
    FieldAt(s, 5, d.month, 2, "-", s3);
    FieldAt(s, 8, d.day, 2, "T", rest);
  }

  lemma ClockAt(s: string, at: nat, t: Time)
    requires IsTime(t) && at <= |s|
    requires s[at..] == Padded(t.hour, 2) + (":" + (Padded(t.minute, 2) + (":" + (Padded(t.second, 2) + "Z"))))
    ensures |s| == at + 9 && s[at + 2] == ':' && s[at + 5] == ':' && s[at + 8] == 'Z'
    ensures DecimalValue(s[at..at + 2]) == t.hour && DecimalValue(s[at + 3..at + 5]) == t.minute
    ensures DecimalValue(s[at + 6..at + 8]) == t.second
  {
    assert Power10(2) == 100;
    hide Padded, DecimalValue, Power10;
    var s6 := Padded(t.second, 2) + ("Z" + "");
    var s5 := Padded(t.minute, 2) + (":" + s6);
    assert "Z" + "" == "Z";
    FieldAt(s, at, t.hour, 2, ":", s5);
    FieldAt(s, at + 3, t.minute, 2, ":", s6);
    FieldAt(s, at + 6, t.second, 2, "Z", "");
  }

  /** A timestamp says its moment, through year 9999: the fields read back from the text are a date of the
      calendar and a clock reading, and the days up to that date with the seconds of that reading are the
      seconds it was printed from. */
  lemma TextSays(secs: nat)
    requires secs < YEAR_10000
    ensures var t := TimeOf(secs);
            && Says(FormatUtc(secs), t) && IsTime(t)
            && secs == 86400 * DayCount(t.date) + 3600 * t.hour + 60 * t.minute + t.second
  {
    FormatIsTimeText(secs);
    YearsOfSeconds(secs);
    CivilIsTheDate(secs / 86400);
    ClockSplits(secs % 86400);
    var t := TimeOf(secs);
    assert t.second == secs % 86400 % 60 by { SecondsAre(secs); }
    hide FormatUtc, TimeText, DayCount, CivilFromDays, IsDate;
    TimeTextSays(t);
  }

  lemma SecondsAre(secs: nat)
    ensures secs % 86400 % 60 == TimeOf(secs).second
  {
    hide CivilFromDays;
  }
}
