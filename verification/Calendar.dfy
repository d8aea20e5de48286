/**
 The two copies of the conversion from Unix seconds to a date and time
 (rust-core/src/runtime_utils.rs, rust-core/src/http.rs).
 */
module Calendar {
  import opened Strings

  datatype DateTime = DateTime(year: int, month: nat, day: int, hour: int, minute: int, second: int)

  predicate Leap(y: int) {
    (y % 4 == 0 && y % 100 != 0) || y % 400 == 0
  }

  function YearLength(y: int): nat {
    if Leap(y) then 366 else 365
  }

  function MonthLengths(leap: bool): (months: seq<nat>)
    ensures |months| == 12
  {
    if leap then [31, 29, 31, 30, 31, 30, 31, 31, 30, 31, 30, 31]
    else [31, 28, 31, 30, 31, 30, 31, 31, 30, 31, 30, 31]
  }

  function MonthLength(y: int, m: nat): (days: nat)
    requires 1 <= m <= 12
    ensures days >= 28
  {
    MonthLengths(Leap(y))[m - 1]
  }

  // ---- The calendar itself, by count of days ---------------------------------------

  /** Leap years up to and including year `y`. */
  function LeapsThrough(y: int): int {
    y / 4 - y / 100 + y / 400
  }

  /** Days from 1 January 1970 to 1 January of year `y`. */
  function DaysBeforeYear(y: int): int {
    365 * (y - 1970) + LeapsThrough(y - 1) - LeapsThrough(1969)
  }

  function DaysBeforeMonth(y: int, m: nat): nat
    requires 1 <= m <= 13
  {
    if m == 1 then 0 else DaysBeforeMonth(y, m - 1) + MonthLength(y, m - 1)
  }

  /** A date and time of the Gregorian calendar, from 1970 on (section 5.6 of RFC 3339). */
  predicate Valid(t: DateTime) {
    && t.year >= 1970 && 1 <= t.month <= 12 && 1 <= t.day <= MonthLength(t.year, t.month)
    && 0 <= t.hour < 24 && 0 <= t.minute < 60 && 0 <= t.second < 60
  }

  function DayNumber(t: DateTime): int
    requires Valid(t)
  {
    DaysBeforeYear(t.year) + DaysBeforeMonth(t.year, t.month) + t.day - 1
  }

  /** Seconds since 1970-01-01T00:00:00Z. */
  function Seconds(t: DateTime): int
    requires Valid(t)
  {
    86400 * DayNumber(t) + 3600 * t.hour + 60 * t.minute + t.second
  }

  lemma NextFours(y: int)
    ensures y / 4 - (y - 1) / 4 == if y % 4 == 0 then 1 else 0
  {
  }

  lemma NextCentury(y: int)
    ensures y / 100 - (y - 1) / 100 == if y % 100 == 0 then 1 else 0
    ensures y % 100 == 0 ==> y % 4 == 0
  {
    assert y == 100 * (y / 100) + y % 100;
    assert y % 100 == 0 ==> y == 4 * (25 * (y / 100));
  }

  lemma NextCycle(y: int)
    ensures y / 400 - (y - 1) / 400 == if y % 400 == 0 then 1 else 0
    ensures y % 400 == 0 ==> y % 100 == 0
  {
    assert y == 400 * (y / 400) + y % 400;
    assert y % 400 == 0 ==> y == 100 * (4 * (y / 400));
  }

  lemma NextYear(y: int)
    ensures DaysBeforeYear(y + 1) == DaysBeforeYear(y) + YearLength(y)
  {
    LeapsStep(y);
    hide LeapsThrough;
  }

  lemma LeapsStep(y: int)
    ensures LeapsThrough(y) - LeapsThrough(y - 1) == if Leap(y) then 1 else 0
  {
    NextFours(y);
    NextCentury(y);
    NextCycle(y);
  }

  lemma MonthsFillYear(y: int)
    ensures DaysBeforeMonth(y, 13) == YearLength(y)
  {
    var days := MonthLengths(Leap(y));
    assert DaysBeforeMonth(y, 2) == days[0];
    assert DaysBeforeMonth(y, 3) == days[0] + days[1];
    assert DaysBeforeMonth(y, 5) == DaysBeforeMonth(y, 3) + 61;
    assert DaysBeforeMonth(y, 7) == DaysBeforeMonth(y, 5) + 61;
    assert DaysBeforeMonth(y, 9) == DaysBeforeMonth(y, 7) + 62;
    assert DaysBeforeMonth(y, 11) == DaysBeforeMonth(y, 9) + 61;
  }

  // ---- The conversions --------------------------------------------------------------

  /** `days_to_ymd`: whole years are taken off, then whole months. */
  method DaysToYmd(days: int) returns (year: int, month: nat, day: int)
    ensures days >= 0 ==>
              && year >= 1970 && 1 <= month <= 12 && 1 <= day <= MonthLength(year, month)
              && DaysBeforeYear(year) + DaysBeforeMonth(year, month) + day - 1 == days
  {
    var y, remaining := 1970, days;
    while true
      invariant y >= 1970 && remaining + DaysBeforeYear(y) == days
      invariant days >= 0 ==> remaining >= 0
      decreases remaining
    {
      var dy := if Leap(y) then 366 else 365;
      if remaining < dy {
        break;
      }
      NextYear(y);
      remaining := remaining - dy;
      y := y + 1;
    }
    MonthsFillYear(y);
    var months := MonthLengths(Leap(y));
    ghost var dayOfYear := remaining;
    var mo := 0;
    for i := 0 to 12
      invariant mo == 0 && remaining + DaysBeforeMonth(y, i + 1) == dayOfYear
      invariant days >= 0 ==> remaining >= 0
    {
      assert months[i] == MonthLength(y, i + 1);
      if remaining < months[i] {
        mo := i + 1;
        break;
      }
      remaining := remaining - months[i];
    }
    return y, mo, remaining + 1;
  }

  /** `iso_from_unix` divides with floor. */
  method IsoFromUnix(secs: int) returns (t: DateTime)
    ensures secs >= 0 ==> Valid(t) && Seconds(t) == secs
  {
    var days, rem := secs / 86400, secs % 86400;
    var hour, minute, second := rem / 3600, rem % 3600 / 60, rem % 60;
    var y, remaining := 1970, days;
    while true
      invariant y >= 1970 && remaining + DaysBeforeYear(y) == days
      invariant days >= 0 ==> remaining >= 0
      decreases remaining
    {
      var dy := if Leap(y) then 366 else 365;
      if remaining < dy {
        break;
      }
      NextYear(y);
      remaining := remaining - dy;
      y := y + 1;
    }
    MonthsFillYear(y);
    var months := MonthLengths(Leap(y));
    ghost var dayOfYear := remaining;
    var mo := 0;
    for i := 0 to 12
      invariant mo == 0 && remaining + DaysBeforeMonth(y, i + 1) == dayOfYear
      invariant days >= 0 ==> remaining >= 0
    {
      assert months[i] == MonthLength(y, i + 1);
      if remaining < months[i] {
        mo := i + 1;
        break;
      }
      remaining := remaining - months[i];
    }
    t := DateTime(y, mo, remaining + 1, hour, minute, second);
    if secs >= 0 {
      ClockParts(days, rem, hour, minute, second);
    }
  }

  /** Division as the machine does it, towards zero. */
  function Quotient(x: int, d: nat): int
    requires d > 0
  {
    if x >= 0 then x / d else -(-x / d)
  }

  function AsU32(x: int): nat {
    x % 0x1_0000_0000
  }

  /** `unix_to_datetime` divides towards zero and narrows to 32 bits. */
  method UnixToDateTime(secs: int) returns (t: DateTime)
    ensures secs >= 0 ==> Valid(t) && Seconds(t) == secs
  {
    hide DaysBeforeYear, DaysBeforeMonth, MonthLength;
    var days := Quotient(secs, 86400);
    var rem := secs - 86400 * days;
    var hour, minute := AsU32(Quotient(rem, 3600)), AsU32(Quotient(rem - 3600 * Quotient(rem, 3600), 60));
    var second := AsU32(rem - 60 * Quotient(rem, 60));
    var y, mo, d := DaysToYmd(days);
    t := DateTime(y, mo, d, hour, minute, second);
    if secs >= 0 {
      QuotientParts(secs);
      ClockParts(days, rem, hour, minute, second);
    }
  }

  /** For a non-negative second both divisions give the same parts, and they fit in 32 bits. */
  lemma QuotientParts(secs: nat)
    ensures
      var days := Quotient(secs, 86400);
      var rem := secs - 86400 * days;
      && days == secs / 86400 && rem == secs % 86400
      && AsU32(Quotient(rem, 3600)) == rem / 3600
      && AsU32(Quotient(rem - 3600 * Quotient(rem, 3600), 60)) == rem % 3600 / 60
      && AsU32(rem - 60 * Quotient(rem, 60)) == rem % 60
  {
  }

  lemma ClockParts(days: int, rem: int, hour: int, minute: int, second: int)
    requires days >= 0 && 0 <= rem < 86400
    requires hour == rem / 3600 && minute == rem % 3600 / 60 && second == rem % 60
    ensures 0 <= hour < 24 && 0 <= minute < 60 && 0 <= second < 60
    ensures 3600 * hour + 60 * minute + second == rem
  {
  }

  // ---- One time, one text, in order ------------------------------------------------------

  /** Earlier by year, month, day, hour, minute, second in turn. */
  predicate Before(a: DateTime, b: DateTime) {
    || a.year < b.year
    || (a.year == b.year && (
        || a.month < b.month
        || (a.month == b.month && (
            || a.day < b.day
            || (a.day == b.day && ClockBefore(a, b))))))
  }

  predicate ClockBefore(a: DateTime, b: DateTime) {
    || a.hour < b.hour
    || (a.hour == b.hour && (a.minute < b.minute || (a.minute == b.minute && a.second < b.second)))
  }

  lemma {:induction false} YearsInOrder(y: int, z: int)
    requires y <= z
    ensures DaysBeforeYear(y) + (if y < z then YearLength(y) else 0) <= DaysBeforeYear(z)
    decreases z - y
  {
    if y < z {
      NextYear(y);
      YearsInOrder(y + 1, z);
    }
  }

  lemma {:induction false} MonthsInOrder(y: int, m: nat, n: nat)
    requires 1 <= m <= n <= 13
    ensures DaysBeforeMonth(y, m) + (if m < n then MonthLength(y, m) else 0) <= DaysBeforeMonth(y, n)
    decreases n - m
  {
    if m < n {
      MonthsInOrder(y, m + 1, n);
    }
  }

  lemma WithinYear(t: DateTime)
    requires Valid(t)
    ensures DaysBeforeYear(t.year) <= DayNumber(t) < DaysBeforeYear(t.year + 1)
  {
    MonthsInOrder(t.year, t.month, 13);
    MonthsFillYear(t.year);
    NextYear(t.year);
  }

  lemma DaysInOrder(a: DateTime, b: DateTime)
    requires Valid(a) && Valid(b)
    requires a.year < b.year || (a.year == b.year && (a.month < b.month || (a.month == b.month && a.day < b.day)))
    ensures DayNumber(a) < DayNumber(b)
  {
    WithinYear(a);
    WithinYear(b);
    if a.year < b.year {
      YearsInOrder(a.year + 1, b.year);
    } else if a.month < b.month {
      MonthsInOrder(a.year, a.month, b.month);
    }
  }

  /** Seconds count the calendar's order; no two date-times have the same count. */
  lemma SecondsInOrder(a: DateTime, b: DateTime)
    requires Valid(a) && Valid(b)
    ensures Before(a, b) <==> Seconds(a) < Seconds(b)
    ensures Seconds(a) == Seconds(b) <==> a == b
  {
    hide DaysBeforeYear, DaysBeforeMonth, MonthLength;
    if a.year == b.year && a.month == b.month && a.day == b.day {
      assert DayNumber(a) == DayNumber(b);
    } else if Before(a, b) {
      DaysInOrder(a, b);
    } else {
      DaysInOrder(b, a);
    }
  }

  /** The two copies give the same date and time for every non-negative second. */
  method ConvertTwice(secs: nat) returns (t: DateTime, u: DateTime)
    ensures t == u && Valid(t) && Seconds(t) == secs
  {
    t := IsoFromUnix(secs);
    u := UnixToDateTime(secs);
    SecondsInOrder(t, u);
  }

  function ClockText(t: DateTime): string
    requires Valid(t)
  {
    Pad(t.hour, 2) + (":" + (Pad(t.minute, 2) + (":" + (Pad(t.second, 2) + ("Z" + "")))))
  }

  /** `{y:04}-{mo:02}-{d:02}T{h:02}:{mi:02}:{s:02}Z` of a four-digit year. */
  function IsoText(t: DateTime): string
    requires Valid(t) && t.year < 10000
  {
    Pad(t.year, 4) + ("-" + (Pad(t.month, 2) + ("-" + (Pad(t.day, 2) + ("T" + ClockText(t))))))
  }

  lemma FieldOrder(n: nat, m: nat, w: nat, sep: string, x: string, y: string)
    requires n < Pow10(w) && m < Pow10(w)
    ensures TextLess(Pad(n, w) + (sep + x), Pad(m, w) + (sep + y)) <==> n < m || (n == m && TextLess(x, y))
  {
    LessSameLength(Pad(n, w), Pad(m, w), sep + x, sep + y);
    LessAfterPrefix(sep, x, y);
    PadOrder(n, m, w);
  }

  lemma ClockOrder(a: DateTime, b: DateTime)
    requires Valid(a) && Valid(b)
    ensures TextLess(ClockText(a), ClockText(b)) <==> ClockBefore(a, b)
  {
    hide Pad, TextLess, MonthLength;
    assert Pow10(2) == 100;
    var f, g := Pad(a.second, 2) + ("Z" + ""), Pad(b.second, 2) + ("Z" + "");
    FieldOrder(a.second, b.second, 2, "Z", "", "");
    LessIrreflexive("");
    FieldOrder(a.minute, b.minute, 2, ":", f, g);
    FieldOrder(a.hour, b.hour, 2, ":", Pad(a.minute, 2) + (":" + f), Pad(b.minute, 2) + (":" + g));
  }

  /** Printed times sort as text the way they sort in time. */
  lemma IsoTextOrder(a: DateTime, b: DateTime)
    requires Valid(a) && Valid(b) && a.year < 10000 && b.year < 10000
    ensures TextLess(IsoText(a), IsoText(b)) <==> Seconds(a) < Seconds(b)
  {
    hide Seconds, Pad, TextLess, MonthLength, ClockBefore, ClockText;
    SecondsInOrder(a, b);
    ClockOrder(a, b);
    assert Pow10(2) == 100 && Pow10(4) == 100 * Pow10(2);
    MonthAtMost31(a);
    MonthAtMost31(b);
    var c, d := Pad(a.day, 2) + ("T" + ClockText(a)), Pad(b.day, 2) + ("T" + ClockText(b));
    FieldOrder(a.day, b.day, 2, "T", ClockText(a), ClockText(b));
    FieldOrder(a.month, b.month, 2, "-", c, d);
    FieldOrder(a.year, b.year, 4, "-", Pad(a.month, 2) + ("-" + c), Pad(b.month, 2) + ("-" + d));
  }

  lemma MonthAtMost31(t: DateTime)
    requires Valid(t)
    ensures t.day <= 31
  {
  }

  // ---- Known dates --------------------------------------------------------------------------------

  /** Thirty days have April, June, September and November; February has 28, in leap years 29; the others 31. */
  lemma MonthsInPlain(y: int, m: nat)
    requires 1 <= m <= 12
    ensures MonthLength(y, m)
         == if m == 4 || m == 6 || m == 9 || m == 11 then 30
            else if m != 2 then 31
            else if y % 400 == 0 || (y % 4 == 0 && y % 100 != 0) then 29 else 28
  {
  }

  /** Section 5.6 of RFC 3339: `yyyy-mm-ddThh:mm:ssZ`. */
  lemma IsoTextInPlain(t: DateTime)
    requires Valid(t) && t.year < 10000
    ensures
      var s := IsoText(t);
      && |s| == 20 && s[4] == s[7] == '-' && s[10] == 'T' && s[13] == s[16] == ':' && s[19] == 'Z'
      && s[..4] == Pad(t.year, 4) && s[5..7] == Pad(t.month, 2) && s[8..10] == Pad(t.day, 2)
      && s[11..13] == Pad(t.hour, 2) && s[14..16] == Pad(t.minute, 2) && s[17..19] == Pad(t.second, 2)
  {
    hide Pad, MonthLength, ClockText;
    ClockTextInPlain(t);
    var clock, s := ClockText(t), IsoText(t);
    assert s[11..] == clock;
    assert s[11..13] == clock[..2] && s[14..16] == clock[3..5] && s[17..19] == clock[6..8];
    assert s[13] == clock[2] && s[16] == clock[5] && s[19] == clock[8];
  }

  lemma ClockTextInPlain(t: DateTime)
    requires Valid(t)
    ensures
      var clock := ClockText(t);
      && |clock| == 9 && clock[2] == ':' && clock[5] == ':' && clock[8] == 'Z'
      && clock[..2] == Pad(t.hour, 2) && clock[3..5] == Pad(t.minute, 2) && clock[6..8] == Pad(t.second, 2)
  {
    hide Pad, MonthLength;
  }

  /** The evening of a leap day, 1,709,251,147 seconds after 1970. */
  lemma KnownTime()
    ensures Valid(DateTime(2024, 2, 29, 23, 59, 7)) && Seconds(DateTime(2024, 2, 29, 23, 59, 7)) == 1_709_251_147
  {
    assert DaysBeforeMonth(2024, 2) == 31;
  }
}
