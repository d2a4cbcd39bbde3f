/** Unix seconds to calendar dates: the two civil-from-days computations, against a calendar
    defined by what the day after a date is. */
module Civil {
  datatype Date = Date(year: int, month: int, day: int)

  // ---- the Gregorian calendar ---------------------------------------------------------------

  predicate Leap(y: int) { y % 4 == 0 && (y % 100 != 0 || y % 400 == 0) }

  function MonthDays(y: int, m: int): int {
    if m == 2 then (if Leap(y) then 29 else 28)
    else if m == 4 || m == 6 || m == 9 || m == 11 then 30
    else 31
  }

  predicate Valid(d: Date) { 1 <= d.month <= 12 && 1 <= d.day <= MonthDays(d.year, d.month) }

  function NextDay(d: Date): Date {
    if d.day < MonthDays(d.year, d.month) then d.(day := d.day + 1)
    else if d.month < 12 then Date(d.year, d.month + 1, 1)
    else Date(d.year + 1, 1, 1)
  }

  // ---- the computation ----------------------------------------------------------------------

  /** Year of the era, and day of that March-based year, from the day of the era. */
  function YearOfEra(doe: int): int { (doe - doe / 1_460 + doe / 36_524 - doe / 146_096) / 365 }
  function DayOfYear(doe: int): int {
    var yoe := YearOfEra(doe);
    doe - (365 * yoe + yoe / 4 - yoe / 100)
  }

  /** Month and day of month from the day of a March-based year. */
  function MonthPart(doy: int): int { (5 * doy + 2) / 153 }
  function MonthNumber(mp: int): int { if mp < 10 then mp + 3 else mp - 9 }
  function DayPart(doy: int): int { doy - (153 * MonthPart(doy) + 2) / 5 + 1 }

  /** The forge's version. */
  function ForgeDate(days: int): Date {
    var z := days + 719_468;
    var era := z / 146_097;
    var doe := z - era * 146_097;
    var yoe := YearOfEra(doe);
    var doy := DayOfYear(doe);
    var m := MonthNumber(MonthPart(doy));
    Date(yoe + era * 400 + (if m <= 2 then 1 else 0), m, DayPart(doy))
  }

  /** The command line's version. */
  function CliDate(ts: int): Date {
    var z := ts / 86_400 + 719_468;
    var era := z / 146_097;
    var doe := z % 146_097;
    var yoe := YearOfEra(doe);
    var y := yoe + era * 400;
    var doy := DayOfYear(doe);
    var m := MonthNumber(MonthPart(doy));
    Date(if m <= 2 then y + 1 else y, m, DayPart(doy))
  }

  // ---- March-based years ----------------------------------------------------------------------

  /** Days of an era before its year `y`. */
  function YearStart(y: int): int { 365 * y + y / 4 - y / 100 }

  /** The March-based year `y` of an era ends with a leap February. */
  predicate LongYear(y: int) { (y + 1) % 4 == 0 && ((y + 1) % 100 != 0 || y + 1 == 400) }

  function YearLength(y: int): int { if LongYear(y) then 366 else 365 }

  lemma YearStartStep(y: int)
    requires 0 <= y < 400
    ensures y < 399 ==> YearStart(y + 1) == YearStart(y) + YearLength(y)
    ensures y == 399 ==> YearStart(y) + YearLength(y) == 146_097
  {
  }

  /** A year of an era by century, four-year cycle and year of the cycle. */
  lemma YearByParts(c: int, q: int, r: int)
    requires 0 <= c <= 3 && 0 <= q <= 24 && 0 <= r <= 3
    ensures YearStart(100 * c + 4 * q + r) == 36_524 * c + 1_461 * q + 365 * r
    ensures LongYear(100 * c + 4 * q + r) <==> r == 3 && (q < 24 || c == 3)
  {
    var y := 100 * c + 4 * q + r;
    assert y / 100 == c && y / 4 == 25 * c + q;
    assert (y + 1) % 4 == (r + 1) % 4;
    assert r == 3 ==> (y + 1) % 100 == (if q == 24 then 0 else 4 * q + 4);
  }

  /** The closed form inverts the start of the year: in each part its correction terms cancel. */
  lemma YearOfParts(c: int, q: int, r: int, doy: int)
    requires 0 <= c <= 3 && 0 <= q <= 24 && 0 <= r <= 3
    requires 0 <= doy < YearLength(100 * c + 4 * q + r)
    ensures 0 <= YearStart(100 * c + 4 * q + r) + doy < 146_097
    ensures YearOfEra(YearStart(100 * c + 4 * q + r) + doy) == 100 * c + 4 * q + r
  {
    YearByParts(c, q, r);
    var y := 100 * c + 4 * q + r;
    var f := 365 * r + doy;
    var doe := 36_524 * c + 1_461 * q + f;
    var last := if doe == 146_096 then 1 else 0;
    var b := if f + 24 * c + q >= 1_460 then 1 else 0;
    assert 0 <= f <= 1_460;
    assert doe / 36_524 == c + last;
    assert doe / 146_096 == last;
    assert doe / 1_460 == 25 * c + q + b;
    assert doe - doe / 1_460 + doe / 36_524 - doe / 146_096 == 365 * y + (doy - b);
    assert 0 <= doy - b < 365;
  }

  lemma YearUnique(y: int, doy: int)
    requires 0 <= y < 400 && 0 <= doy < YearLength(y)
    ensures 0 <= YearStart(y) + doy < 146_097
    ensures YearOfEra(YearStart(y) + doy) == y && DayOfYear(YearStart(y) + doy) == doy
  {
    var c, q, r := y / 100, y % 100 / 4, y % 4;
    assert y == 100 * c + 4 * q + r;
    YearOfParts(c, q, r, doy);
  }

  /** Every day of an era lies in one of its years. */
  lemma YearExists(doe: int) returns (y: int, doy: int)
    requires 0 <= doe < 146_097
    ensures 0 <= y < 400 && 0 <= doy < YearLength(y) && doe == YearStart(y) + doy
  {
    var c := if doe == 146_096 then 3 else doe / 36_524;
    var e := doe - 36_524 * c;
    var q := e / 1_461;
    var f := e - 1_461 * q;
    var r := if f == 1_460 then 3 else f / 365;
    y, doy := 100 * c + 4 * q + r, f - 365 * r;
    assert 0 <= e <= 36_524 && (e == 36_524 ==> c == 3);
    assert 0 <= q <= 24 && 0 <= f <= 1_460;
    YearByParts(c, q, r);
  }

  /** The closed form finds the year that contains the day. */
  lemma YearOfEraFinds(doe: int)
    requires 0 <= doe < 146_097
    ensures 0 <= YearOfEra(doe) < 400
    ensures 0 <= DayOfYear(doe) < YearLength(YearOfEra(doe))
    ensures doe == YearStart(YearOfEra(doe)) + DayOfYear(doe)
  {
    var y, doy := YearExists(doe);
    YearUnique(y, doy);
  }

  // ---- months of a March-based year ---------------------------------------------------------------

  /** The calendar year of a day in March-based year `y`. */
  function CalendarYear(y: int, mp: int): int { if mp < 10 then y else y + 1 }

  function MonthStart(mp: int): int { (153 * mp + 2) / 5 }

  /** Months of a March-based year start where the closed form says, and have their length. */
  lemma MonthLengths(y: int, mp: int)
    requires 0 <= mp < 12
    ensures mp < 11 ==> MonthStart(mp + 1) == MonthStart(mp) + MonthDays(CalendarYear(y, mp), MonthNumber(mp))
    ensures mp == 11 ==>
      MonthStart(mp) + MonthDays(CalendarYear(y, mp), MonthNumber(mp)) == (if Leap(y + 1) then 366 else 365)
  {
  }

  /** The closed form finds the month that contains the day. */
  lemma MonthFinds(doy: int)
    requires 0 <= doy <= 365
    ensures 0 <= MonthPart(doy) < 12 && MonthStart(MonthPart(doy)) <= doy
    ensures MonthPart(doy) < 11 ==> doy < MonthStart(MonthPart(doy) + 1)
  {
  }

  lemma Modulo4(a: int, b: int)
    ensures (4 * a + b) % 4 == b % 4
  {
    assert 4 * a + b == 4 * (a + b / 4) + b % 4;
  }

  lemma Modulo100(a: int, b: int)
    ensures (100 * a + b) % 100 == b % 100
  {
    assert 100 * a + b == 100 * (a + b / 100) + b % 100;
  }

  lemma Modulo400(a: int, b: int)
    ensures (400 * a + b) % 400 == b % 400
  {
    assert 400 * a + b == 400 * (a + b / 400) + b % 400;
  }

  lemma LeapYears(era: int, yoe: int)
    requires 0 <= yoe < 400
    ensures LongYear(yoe) <==> Leap(400 * era + yoe + 1)
  {
    Modulo4(100 * era, yoe + 1);
    Modulo100(4 * era, yoe + 1);
    Modulo400(era, yoe + 1);
    var y := 400 * era + yoe + 1;
    assert y == 4 * (100 * era) + (yoe + 1) && y == 100 * (4 * era) + (yoe + 1);
    assert (yoe + 1) % 400 == 0 <==> yoe + 1 == 400;
  }

  /** A date from its March-based year and day of that year. */
  function MarchDate(y: int, doy: int): Date {
    var mp := MonthPart(doy);
    Date(CalendarYear(y, mp), MonthNumber(mp), DayPart(doy))
  }

  lemma MarchDateStep(y: int, doy: int)
    requires 0 <= doy < (if Leap(y + 1) then 366 else 365)
    ensures Valid(MarchDate(y, doy))
    ensures NextDay(MarchDate(y, doy)) ==
      if doy + 1 < (if Leap(y + 1) then 366 else 365) then MarchDate(y, doy + 1) else MarchDate(y + 1, 0)
  {
    MonthFinds(doy);
    MonthLengths(y, MonthPart(doy));
    if doy + 1 <= 365 { MonthFinds(doy + 1); }
  }

  lemma ForgeParts(days: int) returns (era: int, yoe: int, doy: int)
    ensures 0 <= yoe < 400 && 0 <= doy < YearLength(yoe)
    ensures days + 719_468 == 146_097 * era + YearStart(yoe) + doy
    ensures ForgeDate(days) == MarchDate(400 * era + yoe, doy)
  {
    var z := days + 719_468;
    era := z / 146_097;
    var doe := z - era * 146_097;
    assert 0 <= doe < 146_097;
    YearOfEraFinds(doe);
    yoe, doy := YearOfEra(doe), DayOfYear(doe);
    MonthFinds(doy);
  }

  lemma ForgeFromParts(days: int, era: int, yoe: int, doy: int)
    requires 0 <= yoe < 400 && 0 <= doy < YearLength(yoe)
    requires days + 719_468 == 146_097 * era + YearStart(yoe) + doy
    ensures ForgeDate(days) == MarchDate(400 * era + yoe, doy)
  {
    YearUnique(yoe, doy);
    assert (days + 719_468) / 146_097 == era;
    MonthFinds(doy);
  }

  /** The parts of the next day, as numbers. */
  lemma NextNumbers(era: int, yoe: int, doy: int) returns (era1: int, yoe1: int, doy1: int)
    requires 0 <= yoe < 400 && 0 <= doy < YearLength(yoe)
    ensures 0 <= yoe1 < 400 && 0 <= doy1 < YearLength(yoe1)
    ensures 146_097 * era1 + YearStart(yoe1) + doy1 == 146_097 * era + YearStart(yoe) + doy + 1
    ensures doy + 1 < YearLength(yoe) ==> 400 * era1 + yoe1 == 400 * era + yoe && doy1 == doy + 1
    ensures doy + 1 >= YearLength(yoe) ==> 400 * era1 + yoe1 == 400 * era + yoe + 1 && doy1 == 0
  {
    YearStartStep(yoe);
    if doy + 1 < YearLength(yoe) {
      era1, yoe1, doy1 := era, yoe, doy + 1;
    } else if yoe < 399 {
      era1, yoe1, doy1 := era, yoe + 1, 0;
    } else {
      era1, yoe1, doy1 := era + 1, 0, 0;
      assert YearStart(0) == 0;
    }
  }

  /** The next day's date, from the March-based year `y` and the next day's year `y1`. */
  lemma MarchNext(y: int, doy: int, y1: int, doy1: int, length: int)
    requires length == (if Leap(y + 1) then 366 else 365) && 0 <= doy < length
    requires if doy + 1 < length then y1 == y && doy1 == doy + 1 else y1 == y + 1 && doy1 == 0
    ensures Valid(MarchDate(y, doy)) && NextDay(MarchDate(y, doy)) == MarchDate(y1, doy1)
  {
    MarchDateStep(y, doy);
  }

  lemma PartsSucceed(d: Date, d1: Date, era: int, yoe: int, doy: int, era1: int, yoe1: int, doy1: int)
    requires 0 <= yoe < 400 && 0 <= doy < YearLength(yoe)
    requires d == MarchDate(400 * era + yoe, doy) && d1 == MarchDate(400 * era1 + yoe1, doy1)
    requires doy + 1 < YearLength(yoe) ==> 400 * era1 + yoe1 == 400 * era + yoe && doy1 == doy + 1
    requires doy + 1 >= YearLength(yoe) ==> 400 * era1 + yoe1 == 400 * era + yoe + 1 && doy1 == 0
    ensures Valid(d) && d1 == NextDay(d)
  {
    LeapYears(era, yoe);
    MarchNext(400 * era + yoe, doy, 400 * era1 + yoe1, doy1, YearLength(yoe));
  }

  /** For every day: the date is valid, and the next day's date is its successor. */
  lemma DatesSucceed(days: int)
    ensures Valid(ForgeDate(days)) && ForgeDate(days + 1) == NextDay(ForgeDate(days))
  {
    var era, yoe, doy := ForgeParts(days);
    var era1, yoe1, doy1 := NextNumbers(era, yoe, doy);
    ForgeFromParts(days + 1, era1, yoe1, doy1);
    PartsSucceed(ForgeDate(days), ForgeDate(days + 1), era, yoe, doy, era1, yoe1, doy1);
  }

  lemma EpochDate()
    ensures ForgeDate(0) == Date(1970, 1, 1)
  {
  }

  // ---- day numbers -------------------------------------------------------------------------------------

  function DaysBeforeYear(y: int): int { 365 * (y - 1) + (y - 1) / 4 - (y - 1) / 100 + (y - 1) / 400 }

  function DaysBeforeMonth(y: int, m: int): int
    requires 1 <= m <= 12
  {
    if m == 1 then 0 else DaysBeforeMonth(y, m - 1) + MonthDays(y, m - 1)
  }

  /** Days since 1970-01-01, counted from the calendar. */
  function DayNumber(d: Date): int
    requires Valid(d)
  {
    DaysBeforeYear(d.year) + DaysBeforeMonth(d.year, d.month) + d.day - 1 - 719_162
  }

  lemma LeapCount(y: int)
    ensures y / 4 - (y - 1) / 4 == (if y % 4 == 0 then 1 else 0)
    ensures y / 100 - (y - 1) / 100 == (if y % 100 == 0 then 1 else 0)
    ensures y / 400 - (y - 1) / 400 == (if y % 400 == 0 then 1 else 0)
    ensures (y % 400 == 0 ==> y % 100 == 0) && (y % 100 == 0 ==> y % 4 == 0)
  {
  }

  lemma YearDays(y: int)
    ensures DaysBeforeYear(y + 1) == DaysBeforeYear(y) + (if Leap(y) then 366 else 365)
  {
    LeapCount(y);
  }

  lemma {:induction false} MonthsFillYear(y: int)
    ensures DaysBeforeMonth(y, 12) + 31 == (if Leap(y) then 366 else 365)
  {
    assert DaysBeforeMonth(y, 2) == 31;
    assert DaysBeforeMonth(y, 4) == 62 + MonthDays(y, 2);
    assert DaysBeforeMonth(y, 6) == DaysBeforeMonth(y, 4) + 61;
    assert DaysBeforeMonth(y, 8) == DaysBeforeMonth(y, 6) + 61;
    assert DaysBeforeMonth(y, 10) == DaysBeforeMonth(y, 8) + 61;
    assert DaysBeforeMonth(y, 12) == DaysBeforeMonth(y, 10) + 61;
  }

  lemma NextDayNumber(d: Date)
    requires Valid(d)
    ensures Valid(NextDay(d)) && DayNumber(NextDay(d)) == DayNumber(d) + 1
  {
    YearDays(d.year);
    MonthsFillYear(d.year);
  }

  /** Counting days by successors from 1970-01-01 gives the day numbers. */
  lemma {:induction false} SuccessorsCount(date: int -> Date, days: int)
    requires date(0) == Date(1970, 1, 1)
    requires forall n :: Valid(date(n)) && date(n + 1) == NextDay(date(n))
    ensures DayNumber(date(days)) == days
    decreases if days < 0 then -days else days
  {
    if days == 0 {
      assert DaysBeforeYear(1970) == 719_162;
    } else if days > 0 {
      SuccessorsCount(date, days - 1);
      NextDayNumber(date(days - 1));
      assert date((days - 1) + 1) == date(days);
    } else {
      SuccessorsCount(date, days + 1);
      NextDayNumber(date(days));
    }
  }

  /** For every day, before and after 1970: the date's day number is the day. */
  lemma DateHasDayNumber(days: int)
    ensures Valid(ForgeDate(days)) && DayNumber(ForgeDate(days)) == days
  {
    EpochDate();
    forall n ensures Valid(ForgeDate(n)) && ForgeDate(n + 1) == NextDay(ForgeDate(n)) { DatesSucceed(n); }
    SuccessorsCount(ForgeDate, days);
  }

  /** The two programs compute the same date. */
  lemma VersionsAgree(ts: int)
    ensures CliDate(ts) == ForgeDate(ts / 86_400)
  {
    Remainder(ts / 86_400 + 719_468);
  }

  lemma Remainder(z: int)
    ensures z % 146_097 == z - z / 146_097 * 146_097
  {
  }
}
