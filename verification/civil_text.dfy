/** The texts of a timestamp: `YYYY-MM-DDTHH:MM:SSZ` of the forge and `YYYY-MM-DD HH:MM` of the
    command line, read back by an independent reader of section 5.6 of RFC 3339. */
module CivilText {
  import opened Octets
  import opened Civil

  // ---- decimal fields -------------------------------------------------------------------------

  function Digit(n: int): char
    requires 0 <= n < 10
  {
    "0123456789"[n]
  }

  /** Decimal digits of `n`, padded with zeros to at least `w`. */
  function Padded(n: nat, w: nat): string
    decreases n, w
  {
    if n < 10 && w <= 1 then [Digit(n)] else Padded(n / 10, if w == 0 then 0 else w - 1) + [Digit(n % 10)]
  }

  /** `{n:0w}`: the width counts a minus sign. */
  function Field(n: int, w: nat): string {
    if n < 0 then "-" + Padded(-n, if w == 0 then 0 else w - 1) else Padded(n, w)
  }

  /** The number a string of digits denotes. */
  function ReadNumber(s: string): Option<nat> {
    if s == [] then Some(0)
    else if !('0' <= s[|s| - 1] <= '9') then None
    else match ReadNumber(s[..|s| - 1])
      case None => None
      case Some(n) => Some(10 * n + (s[|s| - 1] as int - '0' as int))
  }

  function Pow10(w: nat): nat { if w == 0 then 1 else 10 * Pow10(w - 1) }

  lemma DigitReads(n: int)
    requires 0 <= n < 10
    ensures '0' <= Digit(n) <= '9' && Digit(n) as int - '0' as int == n
  {
  }

  lemma Tens(n: nat, p: nat)
    requires n < 10 * p
    ensures n / 10 < p && n == 10 * (n / 10) + n % 10
  {
  }

  /** One more digit. */
  lemma {:induction false} DigitRead(s: string, n: nat, c: char, d: nat)
    requires ReadNumber(s) == Some(n) && '0' <= c <= '9' && c as int - '0' as int == d
    ensures ReadNumber(s + [c]) == Some(10 * n + d)
  {
    assert (s + [c])[..|s|] == s;
  }

  lemma {:induction false} PaddedReads(n: nat, w: nat)
    requires w > 0 && n < Pow10(w)
    ensures |Padded(n, w)| == w && ReadNumber(Padded(n, w)) == Some(n)
    decreases w
  {
    Tens(n, Pow10(w - 1));
    if w == 1 {
      DigitReads(n);
      DigitRead([], 0, Digit(n), n);
      assert [] + [Digit(n)] == [Digit(n)];
    } else {
      PaddedReads(n / 10, w - 1);
      DigitReads(n % 10);
      DigitRead(Padded(n / 10, w - 1), n / 10, Digit(n % 10), n % 10);
    }
  }

  lemma {:induction false} PaddedGrows(n: nat, w: nat)
    ensures |Padded(n, w)| >= 1
    ensures n >= Pow10(w) ==> |Padded(n, w)| > w
    decreases n, w
  {
    if !(n < 10 && w <= 1) {
      PaddedGrows(n / 10, if w == 0 then 0 else w - 1);
    }
  }

  lemma {:induction false} SignUnread(s: string)
    requires |s| > 0 && s[0] == '-'
    ensures ReadNumber(s) == None
    decreases |s|
  {
    if |s| > 1 { SignUnread(s[..|s| - 1]); }
  }

  lemma Pow10Values()
    ensures Pow10(1) == 10 && Pow10(2) == 100 && Pow10(3) == 1_000 && Pow10(4) == 10_000
  {
    assert Pow10(2) == 10 * Pow10(1);
    assert Pow10(3) == 10 * Pow10(2);
    assert Pow10(4) == 10 * Pow10(3);
  }

  lemma SmallField(n: int)
    requires 0 <= n < 100
    ensures |Field(n, 2)| == 2 && ReadNumber(Field(n, 2)) == Some(n)
  {
    Pow10Values();
    PaddedReads(n, 2);
  }

  /** A year field is four digits exactly for the years 0000 to 9999. */
  lemma YearField(y: int)
    ensures 0 <= y <= 9_999 ==> |Field(y, 4)| == 4 && ReadNumber(Field(y, 4)) == Some(y)
    ensures !(0 <= y <= 9_999) ==> |Field(y, 4)| > 4 || (|Field(y, 4)| == 4 && ReadNumber(Field(y, 4)) == None)
  {
    Pow10Values();
    if 0 <= y <= 9_999 {
      PaddedReads(y, 4);
    } else if y > 9_999 {
      PaddedGrows(y, 4);
    } else {
      SignUnread(Field(y, 4));
      if -y < 1_000 { PaddedReads(-y, 3); } else { PaddedGrows(-y, 3); }
    }
  }

  // ---- the two texts ----------------------------------------------------------------------------

  function Joined(y: string, mo: string, d: string, h: string, mi: string, se: string): string {
    y + "-" + mo + "-" + d + "T" + h + ":" + mi + ":" + se + "Z"
  }

  function ForgeText(secs: int): string {
    var d := ForgeDate(secs / 86_400);
    var rem := secs % 86_400;
    Joined(Field(d.year, 4), Field(d.month, 2), Field(d.day, 2),
           Field(rem / 3_600, 2), Field(rem % 3_600 / 60, 2), Field(rem % 60, 2))
  }

  function JoinedShort(y: string, mo: string, d: string, h: string, mi: string): string {
    y + "-" + mo + "-" + d + " " + h + ":" + mi
  }

  function CliText(ts: int): string {
    var d := CliDate(ts);
    var rem := ts % 86_400;
    JoinedShort(Field(d.year, 4), Field(d.month, 2), Field(d.day, 2), Field(rem / 3_600, 2), Field(rem % 3_600 / 60, 2))
  }

  // ---- the reader -------------------------------------------------------------------------------

  predicate Layout(s: string) {
    |s| == 20 && s[4] == '-' && s[7] == '-' && s[10] == 'T' && s[13] == ':' && s[16] == ':' && s[19] == 'Z'
  }

  /** The instant of six numbers in the ranges of section 5.7 of RFC 3339. */
  function Instant(y: int, mo: int, d: int, h: int, mi: int, se: int): Option<int> {
    if Valid(Date(y, mo, d)) && 0 <= h < 24 && 0 <= mi < 60 && 0 <= se < 60
    then Some(86_400 * DayNumber(Date(y, mo, d)) + 3_600 * h + 60 * mi + se) else None
  }

  function ReadFields(y: string, mo: string, d: string, h: string, mi: string, se: string): Option<int> {
    var ny, nmo, nd := ReadNumber(y), ReadNumber(mo), ReadNumber(d);
    var nh, nmi, nse := ReadNumber(h), ReadNumber(mi), ReadNumber(se);
    if ny.Some? && nmo.Some? && nd.Some? && nh.Some? && nmi.Some? && nse.Some?
    then Instant(ny.value, nmo.value, nd.value, nh.value, nmi.value, nse.value) else None
  }

  /** Read a UTC date-time in the form of section 5.6 of RFC 3339 as Unix seconds. */
  function ReadRfc3339(s: string): Option<int> {
    if !Layout(s) then None
    else ReadFields(s[..4], s[5..7], s[8..10], s[11..13], s[14..16], s[17..19])
  }

  lemma DateSlices(y: string, mo: string, d: string, tail: string)
    requires |y| == 4 && |mo| == 2 && |d| == 2
    ensures var s := y + "-" + mo + "-" + d + tail;
      && |s| == 10 + |tail| && s[4] == '-' && s[7] == '-'
      && s[..4] == y && s[5..7] == mo && s[8..10] == d && s[10..] == tail
  {
  }

  lemma TimeSlices(h: string, mi: string, se: string)
    requires |h| == 2 && |mi| == 2 && |se| == 2
    ensures var t := "T" + h + ":" + mi + ":" + se + "Z";
      && |t| == 10 && t[0] == 'T' && t[3] == ':' && t[6] == ':' && t[9] == 'Z'
      && t[1..3] == h && t[4..6] == mi && t[7..9] == se
  {
  }

  lemma TailSlices(s: string, t: string)
    requires |s| == 20 && |t| == 10 && s[10..] == t
    ensures s[11..13] == t[1..3] && s[14..16] == t[4..6] && s[17..19] == t[7..9]
    ensures s[10] == t[0] && s[13] == t[3] && s[16] == t[6] && s[19] == t[9]
  {
    assert forall i {:trigger s[i]} :: 10 <= i < 20 ==> s[i] == s[10..][i - 10];
  }

  lemma JoinedSplits(y: string, mo: string, d: string, h: string, mi: string, se: string)
    ensures Joined(y, mo, d, h, mi, se) == y + "-" + mo + "-" + d + ("T" + h + ":" + mi + ":" + se + "Z")
  {
  }

  lemma JoinedReads(y: string, mo: string, d: string, h: string, mi: string, se: string)
    requires |mo| == 2 && |d| == 2 && |h| == 2 && |mi| == 2 && |se| == 2 && |y| >= 4
    ensures ReadRfc3339(Joined(y, mo, d, h, mi, se)) == if |y| == 4 then ReadFields(y, mo, d, h, mi, se) else None
  {
    var s := Joined(y, mo, d, h, mi, se);
    JoinedSplits(y, mo, d, h, mi, se);
    TimeSlices(h, mi, se);
    if |y| == 4 {
      var t := "T" + h + ":" + mi + ":" + se + "Z";
      DateSlices(y, mo, d, t);
      TailSlices(s, t);
    } else {
      assert |s| > 20;
    }
  }

  lemma {:induction false} NumbersRead(y: string, mo: string, d: string, h: string, mi: string, se: string, ny: nat,
                                       nmo: nat, nd: nat, nh: nat, nmi: nat, nse: nat)
    requires ReadNumber(y) == Some(ny) && ReadNumber(mo) == Some(nmo) && ReadNumber(d) == Some(nd)
    requires ReadNumber(h) == Some(nh) && ReadNumber(mi) == Some(nmi) && ReadNumber(se) == Some(nse)
    ensures ReadFields(y, mo, d, h, mi, se) == Instant(ny, nmo, nd, nh, nmi, nse)
  {
  }

  lemma DayRanges(d: Date)
    requires Valid(d)
    ensures 0 <= d.month < 100 && 0 <= d.day < 100
  {
  }

  lemma PartsRead(d: Date, h: int, mi: int, se: int)
    requires 0 <= d.month < 100 && 0 <= d.day < 100 && 0 <= h < 100 && 0 <= mi < 100 && 0 <= se < 100
    ensures ReadRfc3339(Joined(Field(d.year, 4), Field(d.month, 2), Field(d.day, 2), Field(h, 2),
                               Field(mi, 2), Field(se, 2)))
         == if 0 <= d.year <= 9_999 then Instant(d.year, d.month, d.day, h, mi, se) else None
  {
    YearField(d.year);
    SmallField(d.month);
    SmallField(d.day);
    SmallField(h);
    SmallField(mi);
    SmallField(se);
    JoinedReads(Field(d.year, 4), Field(d.month, 2), Field(d.day, 2), Field(h, 2), Field(mi, 2), Field(se, 2));
    if 0 <= d.year <= 9_999 {
      NumbersRead(Field(d.year, 4), Field(d.month, 2), Field(d.day, 2), Field(h, 2), Field(mi, 2), Field(se, 2),
                  d.year, d.month, d.day, h, mi, se);
    }
  }

  lemma TimeParts(rem: int) returns (h: int, mi: int, se: int)
    requires 0 <= rem < 86_400
    ensures h == rem / 3_600 && mi == rem % 3_600 / 60 && se == rem % 60
    ensures 0 <= h < 24 && 0 <= mi < 60 && 0 <= se < 60 && rem == 3_600 * h + 60 * mi + se
  {
    h, mi, se := rem / 3_600, rem % 3_600 / 60, rem % 60;
    assert rem == 3_600 * h + rem % 3_600;
    assert rem % 3_600 % 60 == se by { assert rem == 60 * (60 * h) + rem % 3_600; }
  }

  lemma InstantValue(d: Date, days: int, h: int, mi: int, se: int)
    requires Valid(d) && DayNumber(d) == days && 0 <= h < 24 && 0 <= mi < 60 && 0 <= se < 60
    ensures Instant(d.year, d.month, d.day, h, mi, se) == Some(86_400 * days + 3_600 * h + 60 * mi + se)
  {
    assert d == Date(d.year, d.month, d.day);
  }

  // ---- the days of the years 0000 to 9999 ---------------------------------------------------------

  const FIRST_DAY := -719_528
  const LAST_DAY := 2_932_896

  lemma {:induction false} YearsRise(y: int, z: int)
    requires y <= z
    ensures DaysBeforeYear(y) <= DaysBeforeYear(z)
    decreases z - y
  {
    if y < z {
      YearDays(z - 1);
      YearsRise(y, z - 1);
    }
  }

  lemma DayWithinYear(d: Date)
    requires Valid(d)
    ensures DaysBeforeYear(d.year) <= DayNumber(d) + 719_162 < DaysBeforeYear(d.year + 1)
  {
    YearDays(d.year);
    MonthsFillYear(d.year);
    MonthWithinYear(d.year, d.month, d.day);
  }

  lemma {:induction false} MonthWithinYear(y: int, m: int, day: int)
    requires 1 <= m <= 12 && 1 <= day <= MonthDays(y, m)
    ensures 0 <= DaysBeforeMonth(y, m) && DaysBeforeMonth(y, m) + day <= DaysBeforeMonth(y, 12) + 31
    decreases 12 - m
  {
    MonthsNonNegative(y, m);
    if m < 12 { MonthWithinYear(y, m + 1, 1); }
  }

  lemma {:induction false} MonthsNonNegative(y: int, m: int)
    requires 1 <= m <= 12
    ensures DaysBeforeMonth(y, m) >= 0
    decreases m
  {
    if m > 1 { MonthsNonNegative(y, m - 1); }
  }

  /** The days whose date has a four-digit year. */
  lemma FourDigitYears(days: int)
    ensures 0 <= ForgeDate(days).year <= 9_999 <==> FIRST_DAY <= days <= LAST_DAY
  {
    DateHasDayNumber(days);
    YearBounds(ForgeDate(days), days);
  }

  lemma YearBounds(d: Date, days: int)
    requires Valid(d) && DayNumber(d) == days
    ensures 0 <= d.year <= 9_999 <==> FIRST_DAY <= days <= LAST_DAY
  {
    DayWithinYear(d);
    assert DaysBeforeYear(0) == -366 && DaysBeforeYear(10_000) == 3_652_059;
    if d.year < 0 { YearsRise(d.year + 1, 0); } else { YearsRise(0, d.year); }
    if d.year > 9_999 { YearsRise(10_000, d.year); } else { YearsRise(d.year + 1, 10_000); }
  }

  /** The forge's text is an RFC 3339 date-time that denotes its timestamp exactly from the first
      second of the year 0000 to the last of 9999; outside it is no RFC 3339 date-time at all. */
  lemma TextRoundTrip(secs: int)
    ensures ReadRfc3339(ForgeText(secs)) == if FIRST_DAY <= secs / 86_400 <= LAST_DAY then Some(secs) else None
  {
    FourDigitYears(secs / 86_400);
    TextDenotes(secs);
  }

  lemma TextDenotes(secs: int)
    ensures ReadRfc3339(ForgeText(secs)) == if 0 <= ForgeDate(secs / 86_400).year <= 9_999 then Some(secs) else None
  {
    var days, rem := secs / 86_400, secs % 86_400;
    DateHasDayNumber(days);
    var h, mi, se := TimeParts(rem);
    TextReads(secs, ForgeDate(days), days, rem, h, mi, se);
  }

  lemma TextReads(secs: int, d: Date, days: int, rem: int, h: int, mi: int, se: int)
    requires Valid(d) && DayNumber(d) == days && secs == 86_400 * days + rem
    requires 0 <= h < 24 && 0 <= mi < 60 && 0 <= se < 60 && rem == 3_600 * h + 60 * mi + se
    ensures ReadRfc3339(Joined(Field(d.year, 4), Field(d.month, 2), Field(d.day, 2), Field(h, 2),
                               Field(mi, 2), Field(se, 2)))
         == if 0 <= d.year <= 9_999 then Some(secs) else None
  {
    DayRanges(d);
    InstantValue(d, days, h, mi, se);
    PartsDenote(d, h, mi, se, Some(secs));
  }

  lemma PartsDenote(d: Date, h: int, mi: int, se: int, v: Option<int>)
    requires 0 <= d.month < 100 && 0 <= d.day < 100 && 0 <= h < 100 && 0 <= mi < 100 && 0 <= se < 100
    requires Instant(d.year, d.month, d.day, h, mi, se) == v
    ensures ReadRfc3339(Joined(Field(d.year, 4), Field(d.month, 2), Field(d.day, 2), Field(h, 2),
                               Field(mi, 2), Field(se, 2)))
         == if 0 <= d.year <= 9_999 then v else None
  {
    PartsRead(d, h, mi, se);
  }

  /** `a` and `b` agree up to their separator after the date, and from there to the end of `b`. */
  predicate SameToTheMinute(a: string, b: string) {
    exists n: nat | n < |b| <= |a| :: a[..n] == b[..n] && a[n] == 'T' && b[n] == ' ' && a[n + 1..|b|] == b[n + 1..]
  }

  lemma JoinedAgree(y: string, mo: string, d: string, h: string, mi: string, se: string)
    ensures SameToTheMinute(Joined(y, mo, d, h, mi, se), JoinedShort(y, mo, d, h, mi))
  {
    var a, b := Joined(y, mo, d, h, mi, se), JoinedShort(y, mo, d, h, mi);
    var date := y + "-" + mo + "-" + d;
    var time := h + ":" + mi;
    assert a == date + "T" + time + (":" + se + "Z");
    assert b == date + " " + time;
    var n := |date|;
    assert a[..n] == b[..n] && a[n] == 'T' && b[n] == ' ' && a[n + 1..|b|] == b[n + 1..];
  }

  /** For every timestamp both texts show the same date and the same minute. */
  lemma TextsAgree(ts: int)
    ensures SameToTheMinute(ForgeText(ts), CliText(ts))
  {
    VersionsAgree(ts);
    FieldsAgree(ForgeDate(ts / 86_400), CliDate(ts), ts % 86_400);
  }

  lemma FieldsAgree(d: Date, e: Date, rem: int)
    requires d == e && 0 <= rem
    ensures SameToTheMinute(
      Joined(Field(d.year, 4), Field(d.month, 2), Field(d.day, 2), Field(rem / 3_600, 2), Field(rem % 3_600 / 60, 2),
        Field(rem % 60, 2)),
      JoinedShort(Field(e.year, 4), Field(e.month, 2), Field(e.day, 2), Field(rem / 3_600, 2),
        Field(rem % 3_600 / 60, 2)))
  {
    JoinedAgree(Field(d.year, 4), Field(d.month, 2), Field(d.day, 2), Field(rem / 3_600, 2),
      Field(rem % 3_600 / 60, 2), Field(rem % 60, 2));
  }
}
