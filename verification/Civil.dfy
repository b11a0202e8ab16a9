// Calendar dates from day numbers (webdav-server crate, web.rs), in the proleptic Gregorian
// calendar.
module Civil {
  import opened Base

  datatype Date = Date(year: int, month: nat, day: nat)

  // ---- The calendar ----

  predicate IsLeap(year: int) {
    year % 4 == 0 && (year % 100 != 0 || year % 400 == 0)
  }

  function DaysIn(year: int, month: nat): nat {
    if month == 2 then if IsLeap(year) then 29 else 28
    else if month == 4 || month == 6 || month == 9 || month == 11 then 30
    else 31
  }

  predicate IsDate(d: Date) {
    1 <= d.month <= 12 && 1 <= d.day <= DaysIn(d.year, d.month)
  }

  function NextDay(d: Date): Date {
    if d.day < DaysIn(d.year, d.month) then d.(day := d.day + 1)
    else if d.month < 12 then Date(d.year, d.month + 1, 1)
    else Date(d.year + 1, 1, 1)
  }

  predicate Before(a: Date, b: Date) {
    || a.year < b.year
    || (a.year == b.year && a.month < b.month)
    || (a.year == b.year && a.month == b.month && a.day < b.day)
  }

  // ---- The algorithm ----

  /** Rust's `/` on integers: rounds towards zero. */
  function TruncDiv(a: int, b: int): int
    requires b > 0
  {
    if a >= 0 then a / b else -(-a / b)
  }

  /** Rust's `as u32`. */
  function ToU32(x: int): nat {
    x % U32_LIMIT
  }

  /** Days from 0000-03-01 to the epoch. */
  const EPOCH_OFFSET := 719_468

  /** The 400-year era that a day counted from 0000-03-01 lies in. */
  function Era(z: int): int {
    TruncDiv(if z >= 0 then z else z - 146_096, 146_097)
  }

  /** The year, starting in March, that a day of an era lies in. */
  function YearOfEra(doe: int): int {
    TruncDiv(doe - TruncDiv(doe, 1460) + TruncDiv(doe, 36_524) - TruncDiv(doe, 146_096), 365)
  }

  function DayOfYear(doe: int, yoe: int): int {
    doe - (365 * yoe + TruncDiv(yoe, 4) - TruncDiv(yoe, 100))
  }

  /** The month, counted from March, that a day of such a year lies in. */
  function MonthIndex(doy: int): int {
    TruncDiv(5 * doy + 2, 153)
  }

  /** Days before a month of such a year. */
  function DaysBefore(mp: int): int {
    TruncDiv(153 * mp + 2, 5)
  }

  function CivilFromDays(days: int): Date {
    var z := days + EPOCH_OFFSET;
    var doe := z - Era(z) * 146_097;
    var yoe := YearOfEra(doe);
    var year := yoe + Era(z) * 400;
    DateInYear(year, DayOfYear(doe, yoe))
  }

  /** The date of a day of a year that starts in March. */
  function DateInYear(year: int, doy: int): Date {
    var mp := MonthIndex(doy);
    var day := ToU32(doy - DaysBefore(mp) + 1);
    var month := ToU32(if mp < 10 then mp + 3 else mp - 9);
    Date(if month <= 2 then year + 1 else year, month, day)
  }

  // ---- Its inverse, from the calendar's rules ----

  /** The year, starting in March, that a date lies in. */
  function MarchYear(d: Date): int {
    if d.month <= 2 then d.year - 1 else d.year
  }

  /** The day of that year, from 0. */
  function MarchDay(d: Date): int {
    DaysBefore(if d.month <= 2 then d.month + 9 else d.month - 3) + d.day - 1
  }

  /** Days before a year that starts in March, counting one leap day every four years except
      in three out of four centuries. Division rounds down here. */
  function DaysBeforeYear(y: int): int {
    365 * y + y / 4 - y / 100 + y / 400
  }

  function DaysFromCivil(d: Date): int {
    DaysBeforeYear(MarchYear(d)) + MarchDay(d) - EPOCH_OFFSET
  }

  // ---- Years ----

  lemma EraIsFloor(z: int)
    ensures Era(z) == z / 146_097
  {
  }

  /** A day of an era as whole centuries, four-year cycles and years, and days left over. */
  predicate Splits(doe: int, c: int, q: int, y: int, d: int) {
    && doe == 36_524 * c + 1461 * q + 365 * y + d
    && 0 <= c <= 3 && 0 <= q <= 24 && 0 <= y <= 3
    && 0 <= d <= if y == 3 && (q < 24 || c == 3) then 365 else 364
  }

  lemma Split(doe: int) returns (c: int, q: int, y: int, d: int)
    requires 0 <= doe < 146_097
    ensures Splits(doe, c, q, y, d)
  {
    c := Min(3, doe / 36_524);
    q := (doe - 36_524 * c) / 1461;
    y := Min(3, (doe - 36_524 * c - 1461 * q) / 365);
    d := doe - 36_524 * c - 1461 * q - 365 * y;
  }

  lemma FourYearCycles(doe: int, c: int, q: int, y: int, d: int)
    requires Splits(doe, c, q, y, d)
    ensures doe / 1460 == 25 * c + q + if 24 * c + q + 365 * y + d >= 1460 then 1 else 0
    ensures d == 365 ==> 24 * c + q + 365 * y + d >= 1460
    ensures d == 0 ==> 24 * c + q + 365 * y + d < 1460
  {
    var rest := 24 * c + q + 365 * y + d;
    assert doe == 1460 * (25 * c + q) + rest;
  }

  lemma Centuries(doe: int, c: int, q: int, y: int, d: int)
    requires Splits(doe, c, q, y, d)
    ensures doe / 36_524 - doe / 146_096 == c
  {
  }

  lemma YearsInEra(c: int, q: int, y: int)
    requires 0 <= c && 0 <= q <= 24 && 0 <= y <= 3
    ensures (100 * c + 4 * q + y) / 4 == 25 * c + q && (100 * c + 4 * q + y) / 100 == c
  {
  }

  /** The closed formula finds the year. */
  lemma YearOfSplit(doe: int, c: int, q: int, y: int, d: int)
    requires Splits(doe, c, q, y, d)
    ensures YearOfEra(doe) == 100 * c + 4 * q + y
    ensures DayOfYear(doe, YearOfEra(doe)) == d
  {
    var year := 100 * c + 4 * q + y;
    FourYearCycles(doe, c, q, y, d);
    Centuries(doe, c, q, y, d);
    YearsInEra(c, q, y);
    assert 365 * year <= doe - doe / 1460 + doe / 36_524 - doe / 146_096 < 365 * year + 365;
  }

  /** A year that starts in March has a 366th day exactly when the February at its end is a
      leap year's. */
  lemma LeapSplit(era: int, c: int, q: int, y: int)
    requires 0 <= c <= 3 && 0 <= q <= 24 && 0 <= y <= 3
    ensures IsLeap(400 * era + 100 * c + 4 * q + y + 1) <==> y == 3 && (q < 24 || c == 3)
  {
  }

  lemma DaysBeforeSplit(era: int, c: int, q: int, y: int)
    requires 0 <= c <= 3 && 0 <= q <= 24 && 0 <= y <= 3
    ensures DaysBeforeYear(400 * era + 100 * c + 4 * q + y) == 146_097 * era + 36_524 * c + 1461 * q + 365 * y
  {
    var year := 400 * era + 100 * c + 4 * q + y;
    assert year / 4 == 100 * era + 25 * c + q;
    assert year / 100 == 4 * era + c;
    assert year / 400 == era;
  }

  // ---- Months ----

  /** The month of a day, and the days of a month. */
  lemma Months(doy: int)
    requires 0 <= doy <= 365
    ensures var mp := MonthIndex(doy);
      0 <= mp <= 11 && DaysBefore(mp) <= doy && (mp < 11 ==> doy < DaysBefore(mp + 1))
  {
  }

  lemma MonthLengths(year: int, month: nat)
    requires 1 <= month <= 12
    ensures var mp := if month <= 2 then month + 9 else month - 3;
      month != 2 ==> DaysBefore(mp + 1) - DaysBefore(mp) == DaysIn(year, month)
  {
  }

  lemma MonthOfDay(doy: int, mp: int)
    requires 0 <= mp <= 11 && DaysBefore(mp) <= doy && (if mp < 11 then doy < DaysBefore(mp + 1) else doy <= 365)
    ensures MonthIndex(doy) == mp
  {
  }

  // ---- Main results ----

  /** The algorithm's date, from the parts of the day number. */
  lemma CivilOfParts(days: int, era: int, c: int, q: int, y: int, d: int)
    requires 0 <= c <= 3 && 0 <= q <= 24 && 0 <= y <= 3
    requires 0 <= d <= if y == 3 && (q < 24 || c == 3) then 365 else 364
    requires days + EPOCH_OFFSET == 146_097 * era + 36_524 * c + 1461 * q + 365 * y + d
    ensures var mp, year := MonthIndex(d), 400 * era + 100 * c + 4 * q + y;
      && 0 <= mp <= 11 && DaysBefore(mp) <= d
      && CivilFromDays(days) ==
         Date(if mp < 10 then year else year + 1, if mp < 10 then mp + 3 else mp - 9, d - DaysBefore(mp) + 1)
  {
    var z, doe := days + EPOCH_OFFSET, 36_524 * c + 1461 * q + 365 * y + d;
    EraOfParts(z, era, doe);
    YearOfSplit(doe, c, q, y, d);
    assert CivilFromDays(days) == DateInYear(400 * era + 100 * c + 4 * q + y, d);
    DateOfDay(400 * era + 100 * c + 4 * q + y, d);
  }

  lemma DateOfDay(year: int, d: int)
    requires 0 <= d <= 365
    ensures var mp := MonthIndex(d);
      && 0 <= mp <= 11 && DaysBefore(mp) <= d
      && DateInYear(year, d) ==
         Date(if mp < 10 then year else year + 1, if mp < 10 then mp + 3 else mp - 9, d - DaysBefore(mp) + 1)
  {
    Months(d);
    MonthLengthBound(d);
  }

  lemma EraOfParts(z: int, era: int, doe: int)
    requires z == 146_097 * era + doe && 0 <= doe < 146_097
    ensures Era(z) == era && z - Era(z) * 146_097 == doe
  {
    EraIsFloor(z);
  }

  /** Nothing is lost in narrowing the month and the day to 32 bits. */
  lemma MonthLengthBound(doy: int)
    requires 0 <= doy <= 365
    ensures var mp := MonthIndex(doy);
      && ToU32(doy - DaysBefore(mp) + 1) == doy - DaysBefore(mp) + 1
      && ToU32(if mp < 10 then mp + 3 else mp - 9) == if mp < 10 then mp + 3 else mp - 9
  {
    Months(doy);
    var mp := MonthIndex(doy);
    Narrow(doy - DaysBefore(mp) + 1);
    Narrow(if mp < 10 then mp + 3 else mp - 9);
  }

  lemma Narrow(x: int)
    requires 0 <= x < U32_LIMIT
    ensures ToU32(x) == x
  {
  }

  /** Every day number gives a valid date, and counting the days up to that date by the
      calendar's rules gives the day number back. */
  lemma CivilIsValid(days: int)
    ensures IsDate(CivilFromDays(days))
    ensures DaysFromCivil(CivilFromDays(days)) == days
  {
    var era := (days + EPOCH_OFFSET) / 146_097;
    var c, q, y, d := Split((days + EPOCH_OFFSET) % 146_097);
    CivilOfParts(days, era, c, q, y, d);
    var date := CivilFromDays(days);
    Months(d);
    MonthLengths(date.year, date.month);
    LeapSplit(era, c, q, y);
    DaysBeforeSplit(era, c, q, y);
  }

  /** Every valid date is some day's date: its own. */
  lemma CivilInverts(date: Date)
    requires IsDate(date)
    ensures CivilFromDays(DaysFromCivil(date)) == date
  {
    var era, c, q, y := MarchParts(date);
    MonthOfMarchDay(date);
    CivilOfParts(DaysFromCivil(date), era, c, q, y, MarchDay(date));
  }

  lemma MarchParts(date: Date) returns (era: int, c: int, q: int, y: int)
    requires IsDate(date)
    ensures 0 <= c <= 3 && 0 <= q <= 24 && 0 <= y <= 3
    ensures MarchYear(date) == 400 * era + 100 * c + 4 * q + y
    ensures 0 <= MarchDay(date) <= if y == 3 && (q < 24 || c == 3) then 365 else 364
    ensures DaysFromCivil(date) + EPOCH_OFFSET == 146_097 * era + 36_524 * c + 1461 * q + 365 * y + MarchDay(date)
  {
    var year := MarchYear(date);
    era, c, q, y := year / 400, year % 400 / 100, year % 400 % 100 / 4, year % 400 % 100 % 4;
    LeapSplit(era, c, q, y);
    DaysBeforeSplit(era, c, q, y);
    MonthFits(date, if date.month <= 2 then date.month + 9 else date.month - 3);
  }

  lemma MonthOfMarchDay(date: Date)
    requires IsDate(date)
    ensures MonthIndex(MarchDay(date)) == if date.month <= 2 then date.month + 9 else date.month - 3
  {
    var mp := if date.month <= 2 then date.month + 9 else date.month - 3;
    MonthFits(date, mp);
    MonthOfDay(MarchDay(date), mp);
  }

  lemma MonthFits(date: Date, mp: int)
    requires IsDate(date) && mp == if date.month <= 2 then date.month + 9 else date.month - 3
    ensures var d := MarchDay(date);
      && DaysBefore(mp) <= d
      && (if mp < 11 then d < DaysBefore(mp + 1) else d <= if IsLeap(date.year) then 365 else 364)
      && (mp < 11 ==> d <= 364)
  {
    MonthLengths(date.year, date.month);
  }

  /** The next day number is the next calendar day. */
  lemma CivilSuccessor(days: int)
    ensures CivilFromDays(days + 1) == NextDay(CivilFromDays(days))
  {
    CivilIsValid(days);
    SuccessorOf(CivilFromDays(days), days);
  }

  lemma SuccessorOf(date: Date, days: int)
    requires IsDate(date) && DaysFromCivil(date) == days
    ensures CivilFromDays(days + 1) == NextDay(date)
  {
    NextDayCounts(date);
    CivilOf(NextDay(date), days + 1);
  }

  lemma CivilOf(date: Date, days: int)
    requires IsDate(date) && DaysFromCivil(date) == days
    ensures CivilFromDays(days) == date
  {
    CivilInverts(date);
  }

  lemma NextDayCounts(date: Date)
    requires IsDate(date)
    ensures IsDate(NextDay(date)) && DaysFromCivil(NextDay(date)) == DaysFromCivil(date) + 1
  {
    MonthLengths(date.year, date.month);
    if date.month == 2 {
      YearLength(date.year - 1);
    }
  }

  lemma YearLength(y: int)
    ensures DaysBeforeYear(y + 1) == DaysBeforeYear(y) + if IsLeap(y + 1) then 366 else 365
  {
    assert (y + 1) / 4 == y / 4 + if (y + 1) % 4 == 0 then 1 else 0;
    assert (y + 1) / 100 == y / 100 + if (y + 1) % 100 == 0 then 1 else 0;
    assert (y + 1) / 400 == y / 400 + if (y + 1) % 400 == 0 then 1 else 0;
    assert (y + 1) % 400 == 0 ==> (y + 1) % 100 == 0;
    assert (y + 1) % 100 == 0 ==> (y + 1) % 4 == 0;
  }

  /** Distinct days have distinct dates. */
  lemma CivilIsInjective(a: int, b: int)
    requires CivilFromDays(a) == CivilFromDays(b)
    ensures a == b
  {
    CivilIsValid(a);
    CivilIsValid(b);
  }

  lemma Epoch()
    ensures CivilFromDays(0) == Date(1970, 1, 1)
  {
  }

  predicate Follows(calendar: int -> Date, n: int) {
    IsDate(calendar(n)) && calendar(n + 1) == NextDay(calendar(n))
  }

  lemma {:induction false} StepsGrow(calendar: int -> Date, a: int, b: int)
    requires a < b && forall n :: Follows(calendar, n)
    ensures Before(calendar(a), calendar(b))
    decreases b - a
  {
    assert Follows(calendar, b - 1);
    if a < b - 1 {
      StepsGrow(calendar, a, b - 1);
    }
    BeforeNext(calendar(a), calendar(b - 1));
  }

  /** Later days have later dates. */
  lemma CivilIsMonotone(a: int, b: int)
    requires a < b
    ensures Before(CivilFromDays(a), CivilFromDays(b))
  {
    forall n ensures Follows(CivilFromDays, n) {
      CivilIsValid(n);
      CivilSuccessor(n);
    }
    StepsGrow(CivilFromDays, a, b);
  }

  lemma BeforeNext(x: Date, y: Date)
    requires (x == y || Before(x, y)) && IsDate(y)
    ensures Before(x, NextDay(y))
  {
  }

  // ---- Time of day ----

  datatype Stamp = Stamp(date: Date, hour: nat, minute: nat, second: nat)

  /** `sinceEpoch` is the whole seconds since the epoch; a time before it is shown as the
      epoch. */
  function FormatTime(sinceEpoch: Option<nat>): Stamp {
    var secs := if sinceEpoch.Some? then sinceEpoch.value else 0;
    var tod := secs % 86_400;
    Stamp(CivilFromDays(secs / 86_400), tod / 3600, tod % 3600 / 60, tod % 60)
  }

  /** The stamp is a valid date and time of day, and denotes the given second. */
  lemma FormatTimeIsExact(secs: nat)
    ensures var s := FormatTime(Some(secs));
      && IsDate(s.date) && s.hour < 24 && s.minute < 60 && s.second < 60
      && DaysFromCivil(s.date) * 86_400 + s.hour * 3600 + s.minute * 60 + s.second == secs
  {
    CivilIsValid(secs / 86_400);
    SplitDay(secs / 86_400, secs % 86_400);
  }

  lemma SplitDay(days: nat, tod: nat)
    requires tod < 86_400
    ensures tod / 3600 < 24 && tod % 3600 / 60 < 60 && tod % 60 < 60
    ensures days * 86_400 + tod / 3600 * 3600 + tod % 3600 / 60 * 60 + tod % 60 == days * 86_400 + tod
  {
    assert tod % 3600 % 60 == tod % 60;
  }
}
