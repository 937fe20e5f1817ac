/** Unix seconds to civil UTC date and time, as the alert e-mail renderer computes it
    (crates/bulwark-alert/src/render.rs), against a calendar that simply counts
    days year by year and month by month. */
module Calendar {

  datatype Civil = Civil(year: int, month: int, day: int, hour: int, minute: int, second: int)

  // ----- The reference calendar: proleptic Gregorian, counted -----

  predicate IsLeap(y: int) {
    y % 4 == 0 && (y % 100 != 0 || y % 400 == 0)
  }

  function DaysInYear(y: int): int {
    if IsLeap(y) then 366 else 365
  }

  /** Month lengths of RFC 3339, section 5.7, with the leap-year rule of its Appendix C. */
  function DaysInMonth(y: int, m: int): int
    requires 1 <= m <= 12
  {
    if m == 2 then (if IsLeap(y) then 29 else 28)
    else if m == 4 || m == 6 || m == 9 || m == 11 then 30
    else 31
  }

  /** Days from 1970-01-01 to January 1st of `y`, counted one year at a time. */
  function YearStart(y: int): int
    decreases if y >= 1970 then y - 1970 else 1970 - y
  {
    if y == 1970 then 0
    else if y > 1970 then YearStart(y - 1) + DaysInYear(y - 1)
    else YearStart(y + 1) - DaysInYear(y)
  }

  /** Days from January 1st to the first of month `m`, counted one month at a time. */
  function MonthStart(y: int, m: int): int
    requires 1 <= m <= 12
  {
    if m == 1 then 0 else MonthStart(y, m - 1) + DaysInMonth(y, m - 1)
  }

  predicate ValidDate(y: int, m: int, d: int) {
    1 <= m <= 12 && 1 <= d <= DaysInMonth(y, m)
  }

  predicate ValidCivil(c: Civil) {
    && ValidDate(c.year, c.month, c.day)
    && 0 <= c.hour < 24 && 0 <= c.minute < 60 && 0 <= c.second < 60
  }

  function DayNumber(y: int, m: int, d: int): int
    requires 1 <= m <= 12
  {
    YearStart(y) + MonthStart(y, m) + d - 1
  }

  function UnixFromCivil(c: Civil): int
    requires 1 <= c.month <= 12
  {
    DayNumber(c.year, c.month, c.day) * 86_400 + c.hour * 3600 + c.minute * 60 + c.second
  }

  // ----- The renderer's algorithm -----

  /** Rust's integer `/`, which truncates toward zero; on non-negative operands it is Dafny's. */
  function TruncDiv(a: int, b: int): int
    requires b > 0
  {
    if a >= 0 then a / b else -((-a) / b)
  }

  /** The 400-year era of a day; the shift before the division makes truncation a floor. */
  function EraOf(z: int): (era: int)
    ensures 0 <= z - era * 146_097 < 146_097
  {
    TruncDiv(if z >= 0 then z else z - 146_096, 146_097)
  }

  /** Day of era to year of era. */
  function YearOfEra(doe: nat): nat
    requires doe < 146_097
  {
    (doe - doe / 1460 + doe / 36_524 - doe / 146_096) / 365
  }

  /** Days of an era before March 1st of its year `yoe`. */
  function DaysBefore(yoe: nat): nat {
    365 * yoe + yoe / 4 - yoe / 100
  }

  /** March-based year and day to civil (year, month, day). */
  function FromMarch(y: int, doy: nat): (int, int, int) {
    var mp := (5 * doy + 2) / 153;
    var d := doy - (153 * mp + 2) / 5 + 1;
    var m := if mp < 10 then mp + 3 else mp - 9;
    (if m <= 2 then y + 1 else y, m, d)
  }

  /** Day of era to year of era and day of that March-based year. */
  function SplitEra(doe: nat): (r: (nat, nat))
    requires doe < 146_097
    ensures r.0 == YearOfEra(doe) && DaysBefore(r.0) + r.1 == doe
  {
    var yoe := YearOfEra(doe);
    DayOfYearIsNatural(doe);
    (yoe, doe - DaysBefore(yoe))
  }

  /** The date half: days since the epoch to (year, month, day). */
  function CivilFromDays(days: int): (int, int, int) {
    var z := days + 719_468;
    var era := EraOf(z);
    var split := SplitEra(z - era * 146_097);
    FromMarch(split.0 + era * 400, split.1)
  }

  function WithTime(date: (int, int, int), rem: nat): Civil {
    Civil(date.0, date.1, date.2, rem / 3600, (rem % 3600) / 60, rem % 60)
  }

  function CivilFromUnix(secs: int): Civil {
    // `div_euclid` and `rem_euclid` are Dafny's own `/` and `%`.
    WithTime(CivilFromDays(secs / 86_400), secs % 86_400)
  }

  // ----- Closed forms of the counted calendar -----

  function LeapsBefore(y: int): int {
    (y - 1) / 4 - (y - 1) / 100 + (y - 1) / 400
  }

  lemma QuotientStep4(y: int)
    ensures y / 4 == (y - 1) / 4 + if y % 4 == 0 then 1 else 0
  {
  }

  lemma QuotientStep100(y: int)
    ensures y / 100 == (y - 1) / 100 + if y % 100 == 0 then 1 else 0
  {
  }

  lemma QuotientStep400(y: int)
    ensures y / 400 == (y - 1) / 400 + if y % 400 == 0 then 1 else 0
  {
  }

  lemma Multiples(y: int)
    ensures y % 400 == 0 ==> y % 100 == 0
    ensures y % 100 == 0 ==> y % 4 == 0
  {
    if y % 100 == 0 { assert y == 4 * (25 * (y / 100)); }
    if y % 400 == 0 { assert y == 100 * (4 * (y / 400)); }
  }

  lemma LeapsBeforeStep(y: int)
    ensures LeapsBefore(y + 1) == LeapsBefore(y) + (if IsLeap(y) then 1 else 0)
  {
    QuotientStep4(y);
    QuotientStep100(y);
    QuotientStep400(y);
    Multiples(y);
  }

  lemma {:induction false} YearStartClosed(y: int)
    ensures YearStart(y) == 365 * (y - 1970) + LeapsBefore(y) - 477
    decreases if y >= 1970 then y - 1970 else 1970 - y
  {
    if y > 1970 {
      YearStartClosed(y - 1);
      LeapsBeforeStep(y - 1);
    } else if y < 1970 {
      YearStartClosed(y + 1);
      LeapsBeforeStep(y);
    }
  }

  lemma YearStartNext(y: int)
    ensures YearStart(y + 1) == YearStart(y) + DaysInYear(y)
  {
    YearStartClosed(y);
    YearStartClosed(y + 1);
    LeapsBeforeStep(y);
  }

  /** Counting months from March makes month starts linear: (153 * mp + 2) / 5. */
  lemma MonthStartClosed(y: int, m: int)
    requires 1 <= m <= 12
    ensures m >= 3 ==> MonthStart(y, m) == (153 * (m - 3) + 2) / 5 + 59 + (if IsLeap(y) then 1 else 0)
    ensures m <= 2 ==> MonthStart(y, m) == (153 * (m + 9) + 2) / 5 - 306
  {
    if m > 1 { MonthStartClosed(y, m - 1); }
  }

  // ----- The era arithmetic -----

  /** A day of a 400-year era in centuries, four-year groups, years and days. */
  datatype EraDay = EraDay(b: nat, q: nat, u: nat, doy: nat)

  predicate ValidEraDay(e: EraDay) {
    && e.b <= 3 && e.q <= 24 && e.u <= 3 && e.doy <= 365
    && (e.doy == 365 ==> e.u == 3 && (e.q == 24 ==> e.b == 3))
  }

  function DayOf(e: EraDay): nat {
    36_524 * e.b + 1461 * e.q + 365 * e.u + e.doy
  }

  function YearOf(e: EraDay): nat {
    100 * e.b + 4 * e.q + e.u
  }

  /** Whether the first correction term is one ahead of the leap days so far. */
  function Ahead(e: EraDay): nat {
    if e.q + 365 * e.u + e.doy + 24 * e.b >= 1460 then 1 else 0
  }

  function LastDay(doe: nat): nat {
    if doe == 146_096 then 1 else 0
  }

  /** The correction terms of the algorithm count the leap days before the day. */
  lemma LeapDays(e: EraDay)
    requires ValidEraDay(e)
    ensures DayOf(e) < 146_097 && 0 <= e.doy - Ahead(e) < 365
    ensures DayOf(e) / 1460 == 25 * e.b + e.q + Ahead(e)
    ensures DayOf(e) / 36_524 == e.b + LastDay(DayOf(e)) && DayOf(e) / 146_096 == LastDay(DayOf(e))
  {
  }

  lemma YearOfEraDay(doe: nat, e: EraDay)
    requires ValidEraDay(e) && doe == DayOf(e)
    ensures doe < 146_097 && YearOfEra(doe) == YearOf(e)
  {
    LeapDays(e);
    YearQuotient(YearOf(e), e.doy - Ahead(e));
  }

  lemma YearQuotient(year: int, day: int)
    requires 0 <= day < 365
    ensures (365 * year + day) / 365 == year
  {
  }

  lemma DaysBeforeEraDay(doe: nat, yoe: nat, e: EraDay)
    requires ValidEraDay(e) && doe == DayOf(e) && yoe == YearOf(e)
    ensures DaysBefore(yoe) + e.doy == doe
  {
    assert yoe / 4 == 25 * e.b + e.q && yoe / 100 == e.b;
  }

  /** Every day of an era has such coordinates. */
  lemma Coordinates(doe: nat) returns (e: EraDay)
    requires doe < 146_097
    ensures ValidEraDay(e) && DayOf(e) == doe
  {
    var b := if doe == 146_096 then 3 else doe / 36_524;
    var r := doe - 36_524 * b;
    var q := r / 1461;
    var t := r - 1461 * q;
    var u := if t < 1460 then t / 365 else 3;
    e := EraDay(b, q, u, t - 365 * u);
  }

  lemma DayOfYearIsNatural(doe: nat)
    requires doe < 146_097
    ensures DaysBefore(YearOfEra(doe)) <= doe
  {
    var e := Coordinates(doe);
    YearOfEraDay(doe, e);
    DaysBeforeEraDay(doe, YearOfEra(doe), e);
  }

  /** The day number of March 1st starting year `100b + 4q + u` of an era. */
  lemma MarchYearStart(era: int, b: int, q: int, u: int)
    requires 0 <= b <= 3 && 0 <= q <= 24 && 0 <= u <= 3
    ensures var y := 400 * era + 100 * b + 4 * q + u;
            YearStart(y) + 59 + (if IsLeap(y) then 1 else 0)
            == 146_097 * era + 36_524 * b + 1461 * q + 365 * u - 719_468
  {
    var y := 400 * era + 100 * b + 4 * q + u;
    YearStartClosed(y);
    LeapsBeforeStep(y);
    assert y / 4 == 100 * era + 25 * b + q;
    assert y / 100 == 4 * era + b;
    assert y / 400 == era;
  }

  /** Days 0..365 of a March-based year fall on a valid month and day. */
  lemma MarchDay(y: int, doy: int)
    requires 0 <= doy <= 365
    requires doy == 365 ==> IsLeap(y + 1)
    ensures var (year, m, d) := FromMarch(y, doy);
            && ValidDate(year, m, d)
            && DayNumber(year, m, d) == YearStart(y) + 59 + (if IsLeap(y) then 1 else 0) + doy
  {
    var (year, m, d) := FromMarch(y, doy);
    assert m in {1, 2, 3, 4, 5, 6, 7, 8, 9, 10, 11, 12};
    MonthStartClosed(year, m);
    YearStartNext(y);
  }

  lemma LongYear(era: int, b: int, q: int)
    requires 0 <= b <= 3 && 0 <= q <= 24 && (q == 24 ==> b == 3)
    ensures IsLeap(400 * era + 100 * b + 4 * q + 4)
  {
    var y := 400 * era + 100 * b + 4 * q + 4;
    assert y == 4 * (100 * era + 25 * b + q + 1);
    if q == 24 {
      assert y == 400 * (era + 1);
    } else {
      assert y == 100 * (4 * era + b) + (4 * q + 4);
    }
  }

  lemma SplitIs(year: nat, day: nat, doe: nat, e: EraDay)
    requires ValidEraDay(e) && doe == DayOf(e) && year == YearOf(e) && DaysBefore(year) + day == doe
    ensures day == e.doy
  {
    DaysBeforeEraDay(doe, year, e);
  }

  lemma SplitEraDay(doe: nat, e: EraDay)
    requires ValidEraDay(e) && doe == DayOf(e)
    ensures doe < 146_097 && SplitEra(doe).0 == YearOf(e) && SplitEra(doe).1 == e.doy
  {
    YearOfEraDay(doe, e);
    SplitIs(SplitEra(doe).0, SplitEra(doe).1, doe, e);
  }

  lemma MarchDayCorrect(days: int, era: int, e: EraDay)
    requires ValidEraDay(e) && days + 719_468 == era * 146_097 + DayOf(e)
    ensures var (y, m, d) := FromMarch(YearOf(e) + era * 400, e.doy);
            ValidDate(y, m, d) && DayNumber(y, m, d) == days
  {
    if e.doy == 365 { LongYear(era, e.b, e.q); }
    MarchYearStart(era, e.b, e.q, e.u);
    MarchDay(400 * era + YearOf(e), e.doy);
  }

  /** Every day number becomes the valid date that counts to it. */
  lemma CivilFromDaysCorrect(days: int)
    ensures var (y, m, d) := CivilFromDays(days);
            ValidDate(y, m, d) && DayNumber(y, m, d) == days
  {
    var era := EraOf(days + 719_468);
    var e := Coordinates(days + 719_468 - era * 146_097);
    SplitEraDay(days + 719_468 - era * 146_097, e);
    MarchDayCorrect(days, era, e);
  }

  // ----- Main results -----

  lemma WithTimeCorrect(date: (int, int, int), days: int, rem: nat)
    requires ValidDate(date.0, date.1, date.2) && DayNumber(date.0, date.1, date.2) == days && rem < 86_400
    ensures ValidCivil(WithTime(date, rem)) && UnixFromCivil(WithTime(date, rem)) == days * 86_400 + rem
  {
  }

  /** Each second count becomes a valid civil date and time that counts back to it. */
  lemma CivilRoundTrip(secs: int)
    ensures ValidCivil(CivilFromUnix(secs))
    ensures UnixFromCivil(CivilFromUnix(secs)) == secs
  {
    CivilFromDaysCorrect(secs / 86_400);
    WithTimeCorrect(CivilFromDays(secs / 86_400), secs / 86_400, secs % 86_400);
  }

  ghost predicate Before(a: Civil, b: Civil) {
    || a.year < b.year
    || (a.year == b.year && (a.month < b.month
    || (a.month == b.month && (a.day < b.day
    || (a.day == b.day && (a.hour < b.hour
    || (a.hour == b.hour && (a.minute < b.minute
    || (a.minute == b.minute && a.second < b.second)))))))))
  }

  lemma {:induction false} YearStartMonotone(y: int, y': int)
    requires y < y'
    ensures YearStart(y) + DaysInYear(y) <= YearStart(y')
    decreases y' - y
  {
    YearStartNext(y' - 1);
    if y < y' - 1 { YearStartMonotone(y, y' - 1); }
  }

  lemma {:induction false} MonthStartMonotone(y: int, m: int, m': int)
    requires 1 <= m < m' <= 12
    ensures MonthStart(y, m) + DaysInMonth(y, m) <= MonthStart(y, m')
    decreases m' - m
  {
    if m < m' - 1 { MonthStartMonotone(y, m, m' - 1); }
  }

  /** A valid date stays inside its year. */
  lemma DateInYear(y: int, m: int, d: int)
    requires ValidDate(y, m, d)
    ensures YearStart(y) <= DayNumber(y, m, d) < YearStart(y) + DaysInYear(y)
  {
    MonthStartClosed(y, m);
    MonthStartClosed(y, 12);
  }

  /** Earlier valid dates have smaller second counts. */
  lemma UnixMonotone(a: Civil, b: Civil)
    requires ValidCivil(a) && ValidCivil(b) && Before(a, b)
    ensures UnixFromCivil(a) < UnixFromCivil(b)
  {
    if a.year < b.year {
      DateInYear(a.year, a.month, a.day);
      DateInYear(b.year, b.month, b.day);
      YearStartMonotone(a.year, b.year);
    } else if a.month < b.month {
      MonthStartMonotone(a.year, a.month, b.month);
    }
  }

  /** The renderer inverts the counted calendar on every valid date and time. */
  lemma CivilInverse(c: Civil)
    requires ValidCivil(c)
    ensures CivilFromUnix(UnixFromCivil(c)) == c
  {
    var back := CivilFromUnix(UnixFromCivil(c));
    CivilRoundTrip(UnixFromCivil(c));
    if Before(back, c) {
      UnixMonotone(back, c);
    } else if Before(c, back) {
      UnixMonotone(c, back);
    }
  }

  /** Later seconds render as later dates: the conversion is strictly increasing. */
  lemma CivilMonotone(s: int, s': int)
    ensures s < s' <==> Before(CivilFromUnix(s), CivilFromUnix(s'))
  {
    CivilRoundTrip(s);
    CivilRoundTrip(s');
    var a, b := CivilFromUnix(s), CivilFromUnix(s');
    if Before(a, b) {
      UnixMonotone(a, b);
    } else if a != b {
      UnixMonotone(b, a);
    }
  }
}
