/**
 * UTC calendar breakdown of a file time and the `strftime("%Y%m%d%H%M%S")`
 * rendering the backup job uses to name a swept archive copy. File times are
 * natural numbers of nanoseconds since the Unix epoch (1970-01-01 00:00:00 UTC);
 * the calendar is the proleptic Gregorian one Ruby's `Time#utc` uses.
 */
module Timestamps {
  import opened Decimal

  const NanosPerSecond: nat := 1_000_000_000
  const SecondsPerDay: nat := 86400
  const EpochYear: nat := 1970

  predicate IsLeapYear(y: nat) {
    y % 4 == 0 && (y % 100 != 0 || y % 400 == 0)
  }

  function YearLength(y: nat): nat {
    if IsLeapYear(y) then 366 else 365
  }

  function MonthLength(y: nat, m: nat): nat
    requires 1 <= m <= 12
  {
    if m == 2 then (if IsLeapYear(y) then 29 else 28)
    else if m == 4 || m == 6 || m == 9 || m == 11 then 30
    else 31
  }

  /** Days in months `lo` .. `hi - 1` of year `y`. */
  function MonthsSpan(y: nat, lo: nat, hi: nat): nat
    requires 1 <= lo <= hi <= 13
    decreases hi - lo
  {
    if lo == hi then 0 else MonthLength(y, lo) + MonthsSpan(y, lo + 1, hi)
  }

  /** Days in years `lo` .. `hi - 1`. */
  function YearsSpan(lo: nat, hi: nat): nat
    requires lo <= hi
    decreases hi - lo
  {
    if lo == hi then 0 else YearLength(lo) + YearsSpan(lo + 1, hi)
  }

  lemma TwelveMonthsMakeAYear(y: nat)
    ensures MonthsSpan(y, 1, 13) == YearLength(y)
  {
    var feb := if IsLeapYear(y) then 29 else 28;
    assert MonthsSpan(y, 12, 13) == 31;
    assert MonthsSpan(y, 11, 13) == 61;
    assert MonthsSpan(y, 10, 13) == 92;
    assert MonthsSpan(y, 9, 13) == 122;
    assert MonthsSpan(y, 8, 13) == 153;
    assert MonthsSpan(y, 7, 13) == 184;
    assert MonthsSpan(y, 6, 13) == 214;
    assert MonthsSpan(y, 5, 13) == 245;
    assert MonthsSpan(y, 4, 13) == 275;
    assert MonthsSpan(y, 3, 13) == 306;
    assert MonthsSpan(y, 2, 13) == 306 + feb;
  }

  /** A broken-down UTC time, as `Time#utc` exposes it. */
  datatype DateTime = DateTime(year: nat, month: nat, day: nat, hour: nat, minute: nat, second: nat)

  predicate ValidDateTime(c: DateTime) {
    && EpochYear <= c.year
    && 1 <= c.month <= 12
    && 1 <= c.day <= MonthLength(c.year, c.month)
    && c.hour < 24 && c.minute < 60 && c.second < 60
  }

  /** Whole seconds from the epoch to `c`: the inverse of the breakdown below. */
  function EpochSeconds(c: DateTime): nat
    requires ValidDateTime(c)
  {
    (YearsSpan(EpochYear, c.year) + MonthsSpan(c.year, 1, c.month) + c.day - 1) * SecondsPerDay
      + c.hour * 3600 + c.minute * 60 + c.second
  }

  /** Month and day of the `doy`-th day (0-based) of year `y`, counting from month `m` on. */
  function MonthAndDay(doy: nat, y: nat, m: nat): (r: (nat, nat))
    requires 1 <= m <= 12 && doy < MonthsSpan(y, m, 13)
    ensures m <= r.0 <= 12 && 1 <= r.1 <= MonthLength(y, r.0)
    ensures MonthsSpan(y, m, r.0) + r.1 - 1 == doy
    decreases 12 - m as int
  {
    if m == 12 || doy < MonthLength(y, m) then (m, doy + 1)
    else MonthAndDay(doy - MonthLength(y, m), y, m + 1)
  }

  /** Calendar date of the day `days` days after January 1 of year `y`. */
  function DateOfDay(days: nat, y: nat): (r: (nat, nat, nat))
    ensures y <= r.0 && 1 <= r.1 <= 12 && 1 <= r.2 <= MonthLength(r.0, r.1)
    ensures YearsSpan(y, r.0) + MonthsSpan(r.0, 1, r.1) + r.2 - 1 == days
    decreases days
  {
    if days < YearLength(y) then
      TwelveMonthsMakeAYear(y);
      var md := MonthAndDay(days, y, 1);
      (y, md.0, md.1)
    else
      DateOfDay(days - YearLength(y), y + 1)
  }

  /** `Time#utc` of a file time: the breakdown is valid and loses only the sub-second part. */
  function Utc(t: nat): (c: DateTime)
    ensures ValidDateTime(c)
    ensures EpochSeconds(c) == t / NanosPerSecond
  {
    var secs := t / NanosPerSecond;
    var date := DateOfDay(secs / SecondsPerDay, EpochYear);
    var sod := secs % SecondsPerDay;
    var c := DateTime(date.0, date.1, date.2, sod / 3600, sod % 3600 / 60, sod % 60);
    assert sod == c.hour * 3600 + c.minute * 60 + c.second;
    c
  }

  /** A year below 10000 takes at most four digits. */
  lemma FourDigitYear(y: nat)
    ensures y <= 9999 ==> |ToDecimal(y)| <= 4
  {
    if 1000 <= y <= 9999 {
      assert ToDecimal(y) == ToDecimal(y / 10) + [DigitChar(y % 10)];
      assert ToDecimal(y / 10) == ToDecimal(y / 100) + [DigitChar(y / 10 % 10)];
      assert ToDecimal(y / 100) == ToDecimal(y / 1000) + [DigitChar(y / 100 % 10)];
    } else if 100 <= y < 1000 {
      assert ToDecimal(y) == ToDecimal(y / 10) + [DigitChar(y % 10)];
      assert ToDecimal(y / 10) == ToDecimal(y / 100) + [DigitChar(y / 10 % 10)];
    } else if 10 <= y < 100 {
      assert ToDecimal(y) == ToDecimal(y / 10) + [DigitChar(y % 10)];
    }
  }

  /** `strftime("%Y%m%d%H%M%S")`: year padded to at least four digits, the other fields to two. */
  function Strftime(c: DateTime): (s: string)
    requires ValidDateTime(c)
    ensures AllDigits(s)
    ensures |s| == 10 + Max(4, |ToDecimal(c.year)|)
    ensures c.year <= 9999 ==> |s| == 14
  {
    TwoDigitWidth(c.month);
    TwoDigitWidth(c.day);
    TwoDigitWidth(c.hour);
    TwoDigitWidth(c.minute);
    TwoDigitWidth(c.second);
    FourDigitYear(c.year);
    Padded(c.year, 4) + Padded(c.month, 2) + Padded(c.day, 2)
      + Padded(c.hour, 2) + Padded(c.minute, 2) + Padded(c.second, 2)
  }

  lemma SplitSuffix(a1: string, b1: string, a2: string, b2: string)
    requires a1 + b1 == a2 + b2 && |b1| == |b2|
    ensures a1 == a2 && b1 == b2
  {
    assert a1 == (a1 + b1)[..|a1|];
    assert a2 == (a2 + b2)[..|a2|];
    assert b1 == (a1 + b1)[|a1|..];
    assert b2 == (a2 + b2)[|a2|..];
  }

  /** Distinct valid breakdowns render to distinct names. */
  lemma StrftimeInjective(a: DateTime, b: DateTime)
    requires ValidDateTime(a) && ValidDateTime(b)
    requires Strftime(a) == Strftime(b)
    ensures a == b
  {
    TwoDigitWidth(a.month); TwoDigitWidth(a.day); TwoDigitWidth(a.hour); TwoDigitWidth(a.minute); TwoDigitWidth(a.second);
    TwoDigitWidth(b.month); TwoDigitWidth(b.day); TwoDigitWidth(b.hour); TwoDigitWidth(b.minute); TwoDigitWidth(b.second);
    var ya, ma, da, ha, ia, sa := Padded(a.year, 4), Padded(a.month, 2), Padded(a.day, 2), Padded(a.hour, 2), Padded(a.minute, 2), Padded(a.second, 2);
    var yb, mb, db, hb, ib, sb := Padded(b.year, 4), Padded(b.month, 2), Padded(b.day, 2), Padded(b.hour, 2), Padded(b.minute, 2), Padded(b.second, 2);
    SplitSuffix(ya + ma + da + ha + ia, sa, yb + mb + db + hb + ib, sb);
    SplitSuffix(ya + ma + da + ha, ia, yb + mb + db + hb, ib);
    SplitSuffix(ya + ma + da, ha, yb + mb + db, hb);
    SplitSuffix(ya + ma, da, yb + mb, db);
    SplitSuffix(ya, ma, yb, mb);
  }

  /** The archive timestamp of a file time. */
  function Stamp(t: nat): (s: string)
    ensures AllDigits(s) && 14 <= |s|
  {
    Strftime(Utc(t))
  }

  /**
   * Two file times give the same archive timestamp exactly when they fall in the
   * same whole second: equal times give the same name, different seconds never collide.
   */
  lemma StampSameSecond(t1: nat, t2: nat)
    ensures Stamp(t1) == Stamp(t2) <==> t1 / NanosPerSecond == t2 / NanosPerSecond
  {
    if Stamp(t1) == Stamp(t2) {
      StrftimeInjective(Utc(t1), Utc(t2));
    }
  }
}
