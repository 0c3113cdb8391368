/** Day counts and civil dates (proleptic Gregorian, section 3.2.1 of ISO 8601:2004). */
module Calendar {
  import opened Bytes

  datatype Date = Date(y: int, m: int, d: int)

  predicate IsLeap(y: int) { (y % 4 == 0 && y % 100 != 0) || y % 400 == 0 }

  function DaysInMonth(y: int, m: int): (n: int)
    ensures 28 <= n <= 31
  {
    if m == 1 || m == 3 || m == 5 || m == 7 || m == 8 || m == 10 || m == 12 then 31
    else if m == 4 || m == 6 || m == 9 || m == 11 then 30
    else if m == 2 then (if IsLeap(y) then 29 else 28)
    else 30
  }

  predicate Valid(t: Date) {
    1 <= t.m <= 12 && 1 <= t.d <= DaysInMonth(t.y, t.m)
  }

  /** The day after, by the calendar. */
  function Next(t: Date): Date {
    if t.d < DaysInMonth(t.y, t.m) then Date(t.y, t.m, t.d + 1)
    else if t.m < 12 then Date(t.y, t.m + 1, 1)
    else Date(t.y + 1, 1, 1)
  }

  // Inside an era of 400 years from 1 March: years 0..399, days 0..146096

  function YearOfDay(doe: int): int {
    (doe - doe / 1460 + doe / 36524 - doe / 146096) / 365
  }

  function YearStart(yoe: int): int { 365 * yoe + yoe / 4 - yoe / 100 }

  function MonthStart(mp: int): int { (153 * mp + 2) / 5 }

  function MonthOfDay(doy: int): int { (5 * doy + 2) / 153 }

  /** `civil_from_days`. */
  function CivilFromDays(days: int): Date {
    var z := days + 719468;
    var era := Quotient(if z >= 0 then z else z - 146096, 146097);
    var doe := z - era * 146097;
    var yoe := YearOfDay(doe);
    var doy := doe - YearStart(yoe);
    var mp := MonthOfDay(doy);
    var m := if mp < 10 then mp + 3 else mp - 9;
    Date(yoe + era * 400 + (if m <= 2 then 1 else 0), m, doy - MonthStart(mp) + 1)
  }

  /** `days_from_civil`. */
  function DaysFromCivil(t: Date): int {
    var y := if t.m <= 2 then t.y - 1 else t.y;
    var era := Quotient(if y >= 0 then y else y - 399, 400);
    var yoe := y - era * 400;
    var mp := if t.m > 2 then t.m - 3 else t.m + 9;
    era * 146097 + (YearStart(yoe) + (MonthStart(mp) + t.d - 1)) - 719468
  }

  lemma FloorDivision(a: int, b: int)
    requires b > 0
    ensures Quotient(if a >= 0 then a else a - (b - 1), b) == a / b
  {
    if a < 0 {
      var q, r := a / b, a % b;
      assert a == q * b + r;
      var p := -(a - (b - 1));
      assert p == (-q) * b + (b - 1 - r);
      QuotientIs(p, b, -q, b - 1 - r);
    }
  }

  lemma MultipleGrows(k: int, b: int)
    requires k >= 1 && b > 0
    ensures k * b >= b
  {
    assert k * b == (k - 1) * b + b && (k - 1) * b >= 0;
  }

  lemma SmallMultiple(k: int, b: int)
    requires b > 0 && -b < k * b < b
    ensures k == 0
  {
    if k >= 1 {
      MultipleGrows(k, b);
    } else if k <= -1 {
      MultipleGrows(-k, b);
    }
  }

  lemma QuotientIs(p: int, b: int, q: int, r: int)
    requires b > 0 && p == q * b + r && 0 <= r < b
    ensures p / b == q
  {
    var q2, r2 := p / b, p % b;
    assert p == q2 * b + r2;
    assert (q2 - q) * b == q2 * b - q * b;
    SmallMultiple(q2 - q, b);
  }

  /** The year of an era ends with 29 February. */
  predicate LongYear(yoe: int) { yoe % 4 == 3 && (yoe % 100 != 99 || yoe == 399) }

  predicate InYear(yoe: int, doy: int) {
    0 <= yoe < 400 && 0 <= doy <= 365 && (doy == 365 ==> LongYear(yoe))
  }

  lemma YearParts(c: int, q: int, r: int)
    requires 0 <= c <= 3 && 0 <= q <= 24 && 0 <= r <= 3
    ensures var k := 100 * c + 4 * q + r; 0 <= k < 400 && k / 100 == c && k / 4 == 25 * c + q && k % 4 == r && k % 100 == 4 * q + r
    ensures YearStart(100 * c + 4 * q + r) == 36524 * c + 1461 * q + 365 * r
  {
  }

  /** The year formula, for day `doy` of year `100c + 4q + r`. */
  lemma YearFormula(c: int, q: int, r: int, doy: int)
    requires 0 <= c <= 3 && 0 <= q <= 24 && 0 <= r <= 3 && 0 <= doy <= 365
    requires doy == 365 ==> r == 3 && (q < 24 || c == 3)
    ensures YearOfDay(36524 * c + 1461 * q + 365 * r + doy) == 100 * c + 4 * q + r
    ensures 0 <= 36524 * c + 1461 * q + 365 * r + doy < 146097
  {
    var doe := 36524 * c + 1461 * q + 365 * r + doy;
    var e := 1461 * q + 365 * r + doy;
    var g := 24 * c + q + 365 * r + doy;
    var late := if g >= 1460 then 1 else 0;
    Centuries(c, e);
    QuotientIs(doe, 1460, 25 * c + q + late, g - 1460 * late);
    QuotientIs(365 * (100 * c + 4 * q + r) + (doy - late), 365, 100 * c + 4 * q + r, doy - late);
  }

  lemma Centuries(c: int, e: int)
    requires 0 <= c <= 3 && 0 <= e <= 36524 && (e == 36524 ==> c == 3)
    ensures (36524 * c + e) / 36524 - (36524 * c + e) / 146096 == c
  {
  }

  lemma YearOfEra(yoe: int, doy: int)
    requires InYear(yoe, doy)
    ensures YearOfDay(YearStart(yoe) + doy) == yoe && 0 <= YearStart(yoe) + doy < 146097
  {
    var c, q, r := yoe / 100, yoe % 100 / 4, yoe % 4;
    assert yoe == 100 * c + 4 * q + r;
    YearParts(c, q, r);
    YearFormula(c, q, r, doy);
  }

  /** Every day of an era is a day of one of its years. */
  lemma DayOfEra(doe: int) returns (yoe: int, doy: int)
    requires 0 <= doe < 146097
    ensures InYear(yoe, doy) && doe == YearStart(yoe) + doy
  {
    var c := if doe == 146096 then 3 else doe / 36524;
    var e := doe - 36524 * c;
    var q := if e == 36524 then 24 else e / 1461;
    var f := e - 1461 * q;
    var r := if f == 1460 then 3 else f / 365;
    yoe, doy := 100 * c + 4 * q + r, f - 365 * r;
    YearParts(c, q, r);
  }

  lemma MonthParts(mp: int)
    requires 0 <= mp <= 11
    ensures MonthStart(mp) == [0, 31, 61, 92, 122, 153, 184, 214, 245, 275, 306, 337][mp]
  {
  }

  lemma MonthOfYear(mp: int, doy: int)
    requires 0 <= mp <= 11 && MonthStart(mp) <= doy && doy < (if mp == 11 then 366 else MonthStart(mp + 1))
    ensures MonthOfDay(doy) == mp
  {
  }

  lemma MonthFound(doy: int)
    requires 0 <= doy <= 365
    ensures var mp := MonthOfDay(doy);
      0 <= mp <= 11 && MonthStart(mp) <= doy < (if mp == 11 then 366 else MonthStart(mp + 1))
  {
  }

  /** A date as era, year of era from March, month from March and day. */
  ghost predicate Parts(t: Date, era: int, yoe: int, mp: int, doy: int) {
    0 <= mp <= 11 && 0 <= yoe < 400 && t.m == (if mp < 10 then mp + 3 else mp - 9) &&
    t.y == yoe + era * 400 + (if t.m <= 2 then 1 else 0) && doy == MonthStart(mp) + t.d - 1
  }

  lemma DaysOfParts(t: Date, era: int, yoe: int, mp: int, doy: int)
    requires Parts(t, era, yoe, mp, doy)
    ensures DaysFromCivil(t) == era * 146097 + YearStart(yoe) + doy - 719468
  {
    hide MonthStart, YearStart;
    var y := if t.m <= 2 then t.y - 1 else t.y;
    FloorDivision(y, 400);
    QuotientIs(y, 400, era, yoe);
  }

  lemma CivilOfParts(t: Date, era: int, yoe: int, mp: int, doy: int)
    requires Parts(t, era, yoe, mp, doy) && InYear(yoe, doy) && MonthOfDay(doy) == mp
    ensures CivilFromDays(era * 146097 + YearStart(yoe) + doy - 719468) == t
  {
    hide MonthStart, YearStart, YearOfDay, MonthOfDay;
    YearOfEra(yoe, doy);
    var z := era * 146097 + (YearStart(yoe) + doy);
    FloorDivision(z, 146097);
    QuotientIs(z, 146097, era, YearStart(yoe) + doy);
  }

  lemma LeapParts(era: int, yoe: int)
    requires 0 <= yoe < 400
    ensures IsLeap(yoe + era * 400 + 1) <==> LongYear(yoe)
  {
    Residue(yoe + 1, 100 * era, 4);
    Residue(yoe + 1, 4 * era, 100);
    Residue(yoe + 1, era, 400);
  }

  lemma Residue(a: int, k: int, b: int)
    requires b > 0
    ensures (a + k * b) % b == a % b
  {
    QuotientIs(a + k * b, b, a / b + k, a % b);
  }

  /** The day of the year is the same to the valid date and to its parts. */
  lemma ValidIff(t: Date, era: int, yoe: int, mp: int, doy: int)
    requires Parts(t, era, yoe, mp, doy)
    ensures Valid(t) <==> InYear(yoe, doy) && MonthOfDay(doy) == mp
  {
    MonthParts(mp);
    if mp < 11 { MonthParts(mp + 1); }
    LeapParts(era, yoe);
    if Valid(t) {
      MonthOfYear(mp, doy);
    } else if InYear(yoe, doy) {
      MonthFound(doy);
    }
  }

  lemma PartsOf(t: Date) returns (era: int, yoe: int, mp: int, doy: int)
    requires 1 <= t.m <= 12
    ensures Parts(t, era, yoe, mp, doy)
  {
    var y := if t.m <= 2 then t.y - 1 else t.y;
    era, yoe := y / 400, y % 400;
    mp := if t.m > 2 then t.m - 3 else t.m + 9;
    doy := MonthStart(mp) + t.d - 1;
  }

  // Main results

  /** Every day count is a valid date, and that date's day count. */
  lemma DaysRoundTrip(days: int)
    ensures Valid(CivilFromDays(days)) && DaysFromCivil(CivilFromDays(days)) == days
  {
    hide CivilFromDays, DaysFromCivil, MonthStart, MonthOfDay, YearStart, Valid;
    var z := days + 719468;
    var era, doe := z / 146097, z % 146097;
    var yoe, doy := DayOfEra(doe);
    MonthFound(doy);
    var mp := MonthOfDay(doy);
    var m := if mp < 10 then mp + 3 else mp - 9;
    var t := Date(yoe + era * 400 + (if m <= 2 then 1 else 0), m, doy - MonthStart(mp) + 1);
    assert Parts(t, era, yoe, mp, doy);
    CivilOfParts(t, era, yoe, mp, doy);
    DaysOfParts(t, era, yoe, mp, doy);
    ValidIff(t, era, yoe, mp, doy);
  }

  /** Every valid date comes back from its day count. */
  lemma DateRoundTrip(t: Date)
    requires Valid(t)
    ensures CivilFromDays(DaysFromCivil(t)) == t
  {
    hide CivilFromDays, DaysFromCivil, MonthStart, MonthOfDay, YearStart;
    var era, yoe, mp, doy := PartsOf(t);
    ValidIff(t, era, yoe, mp, doy);
    DaysOfParts(t, era, yoe, mp, doy);
    CivilOfParts(t, era, yoe, mp, doy);
  }

  /** Day 0 is 1 January 1970, and the day after a date has the next day count: with the
      round trips, this pins both functions down. */
  lemma DaysFollowTheCalendar(t: Date)
    requires Valid(t)
    ensures Valid(Next(t)) && DaysFromCivil(Next(t)) == DaysFromCivil(t) + 1
    ensures CivilFromDays(0) == Date(1970, 1, 1)
  {
    hide CivilFromDays, DaysFromCivil, InYear, MonthOfDay, Parts;
    EpochIs();
    var era, yoe, mp, doy := PartsOf(t);
    DaysOfParts(t, era, yoe, mp, doy);
    if t.d < DaysInMonth(t.y, t.m) {
      WithinMonth(t, era, yoe, mp, doy);
    } else if t.m != 2 {
      IntoNextMonth(t, era, yoe, mp, doy);
    } else {
      OutOfFebruary(t, era, yoe, mp, doy);
    }
  }

  lemma WithinMonth(t: Date, era: int, yoe: int, mp: int, doy: int)
    requires Valid(t) && Parts(t, era, yoe, mp, doy) && t.d < DaysInMonth(t.y, t.m)
    ensures Valid(Next(t)) && DaysFromCivil(Next(t)) == era * 146097 + YearStart(yoe) + doy + 1 - 719468
  {
    hide DaysFromCivil, YearStart, MonthStart;
    DaysOfParts(Next(t), era, yoe, mp, doy + 1);
  }

  lemma IntoNextMonth(t: Date, era: int, yoe: int, mp: int, doy: int)
    requires Valid(t) && Parts(t, era, yoe, mp, doy) && t.d == DaysInMonth(t.y, t.m) && t.m != 2
    ensures Valid(Next(t)) && DaysFromCivil(Next(t)) == era * 146097 + YearStart(yoe) + doy + 1 - 719468
  {
    hide DaysFromCivil, YearStart, MonthStart;
    MonthParts(mp);
    MonthParts(mp + 1);
    DaysOfParts(Next(t), era, yoe, mp + 1, doy + 1);
  }

  lemma OutOfFebruary(t: Date, era: int, yoe: int, mp: int, doy: int)
    requires Valid(t) && Parts(t, era, yoe, mp, doy) && t.d == DaysInMonth(t.y, t.m) && t.m == 2
    ensures Valid(Next(t)) && DaysFromCivil(Next(t)) == era * 146097 + YearStart(yoe) + doy + 1 - 719468
  {
    hide DaysFromCivil, YearStart, MonthStart, LongYear, IsLeap;
    MonthParts(0);
    MonthParts(11);
    LeapParts(era, yoe);
    assert doy == (if LongYear(yoe) then 365 else 364);
    if yoe < 399 {
      NextYear(yoe);
      DaysOfParts(Next(t), era, yoe + 1, 0, 0);
    } else {
      LastYear();
      DaysOfParts(Next(t), era + 1, 0, 0, 0);
    }
  }

  lemma LastYear()
    ensures LongYear(399) && YearStart(399) + 366 == 146097 && YearStart(0) == 0
  {
  }

  lemma EpochIs()
    ensures CivilFromDays(0) == Date(1970, 1, 1)
  {
    assert DaysFromCivil(Date(1970, 1, 1)) == 0;
    DateRoundTrip(Date(1970, 1, 1));
  }

  lemma NextYear(yoe: int)
    requires 0 <= yoe < 399
    ensures YearStart(yoe + 1) == YearStart(yoe) + (if LongYear(yoe) then 366 else 365)
  {
    hide YearStart, LongYear;
    var c, q, r := yoe / 100, yoe % 100 / 4, yoe % 4;
    assert yoe == 100 * c + 4 * q + r;
    NextYearOf(c, q, r);
  }

  lemma NextYearOf(c: int, q: int, r: int)
    requires 0 <= c <= 3 && 0 <= q <= 24 && 0 <= r <= 3 && 100 * c + 4 * q + r < 399
    ensures var yoe := 100 * c + 4 * q + r;
      YearStart(yoe + 1) == YearStart(yoe) + (if LongYear(yoe) then 366 else 365)
  {
    hide YearStart;
    YearParts(c, q, r);
    if r < 3 {
      YearParts(c, q, r + 1);
    } else if q < 24 {
      YearParts(c, q + 1, 0);
    } else {
      YearParts(c + 1, 0, 0);
    }
  }

  // Months

  function Min(a: int, b: int): int { if a <= b then a else b }

  /** `add_months`. */
  function AddMonths(days: int, n: int): int {
    var t := CivilFromDays(days);
    var total := t.y * 12 + (t.m - 1) + n;
    var ny, nm := total / 12, total % 12 + 1;
    DaysFromCivil(Date(ny, nm, Min(t.d, DaysInMonth(ny, nm))))
  }

  /** `eval_date_diff` in months. */
  function MonthsBetween(days1: int, days2: int): int {
    var (a, b) := (CivilFromDays(days1), CivilFromDays(days2));
    (b.y * 12 + b.m) - (a.y * 12 + a.m)
  }

  /** Adding `n` months gives a valid date exactly `n` months away, on the same day of
      the month or on the last one if the month is shorter. */
  lemma AddMonthsIs(days: int, n: int)
    ensures var (a, b) := (CivilFromDays(days), CivilFromDays(AddMonths(days, n)));
      Valid(b) && b.d == Min(a.d, DaysInMonth(b.y, b.m)) && MonthsBetween(days, AddMonths(days, n)) == n
  {
    hide CivilFromDays, DaysFromCivil;
    DaysRoundTrip(days);
    var t := CivilFromDays(days);
    var total := t.y * 12 + (t.m - 1) + n;
    DateRoundTrip(Date(total / 12, total % 12 + 1, Min(t.d, DaysInMonth(total / 12, total % 12 + 1))));
  }
}
