/**
 * The proleptic Gregorian calendar that Go's `time` package uses, on plain
 * integers: dates, wall-clock times, their count of seconds since
 * 0001-01-01 00:00:00, and moving a wall-clock time by a zone offset.
 */
module Calendar {

  datatype Date = Date(year: int, month: int, day: int)

  /** A wall-clock reading: a date, a time of day and a count of nanoseconds. */
  datatype Civil = Civil(date: Date, hour: int, minute: int, second: int, nanos: int)

  /**
   * A `time.Time`: the instant, held as the UTC reading of it, and the offset
   * in seconds east of UTC of the zone it is shown in.
   */
  datatype Time = Time(utc: Civil, offset: int)

  const SecondsPerDay := 86400
  const NanosPerSecond := 1000000000

  predicate IsLeap(year: int)
  {
    year % 4 == 0 && (year % 100 != 0 || year % 400 == 0)
  }

  /** Days in `month` of `year` (Go's `daysIn`). */
  function DaysIn(month: int, year: int): (n: int)
    requires 1 <= month <= 12
    ensures 28 <= n <= 31
    ensures month == 2 ==> (n == 29 <==> IsLeap(year))
  {
    if month == 2 then (if IsLeap(year) then 29 else 28)
    else if month == 4 || month == 6 || month == 9 || month == 11 then 30
    else 31
  }

  predicate ValidDate(d: Date)
  {
    1 <= d.month <= 12 && 1 <= d.day <= DaysIn(d.month, d.year)
  }

  predicate ValidCivil(c: Civil)
  {
    && ValidDate(c.date)
    && 0 <= c.hour < 24 && 0 <= c.minute < 60 && 0 <= c.second < 60
    && 0 <= c.nanos < NanosPerSecond
  }

  predicate ValidTime(t: Time)
  {
    ValidCivil(t.utc)
  }

  function YearLength(year: int): int
  {
    if IsLeap(year) then 366 else 365
  }

  /** Days from 0001-01-01 to the first of January of `year` (Dafny's `/` is the floor here). */
  function DaysBeforeYear(year: int): int
  {
    var p := year - 1;
    365 * p + p / 4 - p / 100 + p / 400
  }

  /** Days of `year` before the first of `month`. */
  function DaysBeforeMonth(month: int, year: int): int
    requires 1 <= month <= 13
  {
    var table := [0, 31, 59, 90, 120, 151, 181, 212, 243, 273, 304, 334, 365];
    table[month - 1] + (if IsLeap(year) && month > 2 then 1 else 0)
  }

  /** Days from 0001-01-01 to `d`. */
  function DayNumber(d: Date): int
    requires 1 <= d.month <= 12
  {
    DaysBeforeYear(d.year) + DaysBeforeMonth(d.month, d.year) + d.day - 1
  }

  /** Seconds from 0001-01-01 00:00:00 to the reading `c`, ignoring its nanoseconds. */
  function Seconds(c: Civil): int
    requires 1 <= c.date.month <= 12
  {
    DayNumber(c.date) * SecondsPerDay + c.hour * 3600 + c.minute * 60 + c.second
  }

  /** Nanoseconds from 0001-01-01 00:00:00 to `c`. */
  function Nanos(c: Civil): int
    requires 1 <= c.date.month <= 12
  {
    Seconds(c) * NanosPerSecond + c.nanos
  }

  /** The zero `time.Time`: January 1, year 1, 00:00:00 UTC. */
  const ZeroCivil := Civil(Date(1, 1, 1), 0, 0, 0, 0)
  const Zero := Time(ZeroCivil, 0)

  /** Go's `Time.IsZero`: the instant is 0001-01-01 00:00:00 UTC; the zone plays no part. */
  predicate IsZero(t: Time)
    requires 1 <= t.utc.date.month <= 12
  {
    Nanos(t.utc) == 0
  }

  /** Go's `Time.UTC`: the same instant, shown in UTC. */
  function UTC(t: Time): (u: Time)
    ensures u.utc == t.utc && u.offset == 0
  {
    Time(t.utc, 0)
  }

  /** Go's `Time.After`: `a` is a later instant than `b`. */
  predicate After(a: Time, b: Time)
    requires 1 <= a.utc.date.month <= 12 && 1 <= b.utc.date.month <= 12
  {
    Nanos(a.utc) > Nanos(b.utc)
  }

  lemma ZeroIsZero()
    ensures ValidTime(Zero) && IsZero(Zero)
  {
  }

  /** The first of January of the next year comes `YearLength(year)` days later. */
  lemma DaysBeforeNextYear(year: int)
    ensures DaysBeforeYear(year + 1) == DaysBeforeYear(year) + YearLength(year)
  {
    var p := year - 1;
    FloorStep4(p);
    FloorStep100(p);
    FloorStep400(p);
    Multiples(year);
  }

  lemma Multiples(year: int)
    ensures year % 400 == 0 ==> year % 100 == 0
    ensures year % 100 == 0 ==> year % 4 == 0
  {
    var q400, q100, q4 := year / 400, year / 100, year / 4;
    var r100, r4 := year % 100, year % 4;
    assert year == 400 * q400 + year % 400;
    assert year == 100 * q100 + r100 && 0 <= r100 < 100;
    assert year == 4 * q4 + r4 && 0 <= r4 < 4;
    if year % 400 == 0 {
      assert r100 == 100 * (4 * q400 - q100);
    }
    if r100 == 0 {
      assert r4 == 4 * (25 * q100 - q4);
    }
  }

  lemma FloorStep4(p: int)
    ensures (p + 1) / 4 == p / 4 + (if (p + 1) % 4 == 0 then 1 else 0)
  {
  }

  lemma FloorStep100(p: int)
    ensures (p + 1) / 100 == p / 100 + (if (p + 1) % 100 == 0 then 1 else 0)
  {
  }

  lemma FloorStep400(p: int)
    ensures (p + 1) / 400 == p / 400 + (if (p + 1) % 400 == 0 then 1 else 0)
  {
  }

  /** The day after `d`, rolling over the month and the year. */
  function NextDay(d: Date): (n: Date)
    requires ValidDate(d)
    ensures ValidDate(n) && DayNumber(n) == DayNumber(d) + 1
  {
    if d.day < DaysIn(d.month, d.year) then Date(d.year, d.month, d.day + 1)
    else if d.month < 12 then Date(d.year, d.month + 1, 1)
    else
      DaysBeforeNextYear(d.year);
      Date(d.year + 1, 1, 1)
  }

  /** The day before `d`, rolling back the month and the year. */
  function PrevDay(d: Date): (p: Date)
    requires ValidDate(d)
    ensures ValidDate(p) && DayNumber(p) == DayNumber(d) - 1
  {
    if d.day > 1 then Date(d.year, d.month, d.day - 1)
    else if d.month > 1 then Date(d.year, d.month - 1, DaysIn(d.month - 1, d.year))
    else
      DaysBeforeNextYear(d.year - 1);
      Date(d.year - 1, 12, 31)
  }

  /** `d` moved by `k` days, forward or back. */
  function AddDays(d: Date, k: int): (r: Date)
    requires ValidDate(d)
    ensures ValidDate(r) && DayNumber(r) == DayNumber(d) + k
    decreases if k < 0 then -k else k
  {
    if k == 0 then d
    else if k > 0 then AddDays(NextDay(d), k - 1)
    else AddDays(PrevDay(d), k + 1)
  }

  /**
   * The UTC reading of the wall-clock reading `local` taken in a zone
   * `offset` seconds east of UTC: the same instant, `offset` seconds earlier
   * on the clock, with the date rolled as far as it needs to go.
   */
  function ToUTC(local: Civil, offset: int): (u: Civil)
    requires ValidCivil(local)
    ensures ValidCivil(u)
    ensures Seconds(u) == Seconds(local) - offset && u.nanos == local.nanos
  {
    var sod := local.hour * 3600 + local.minute * 60 + local.second - offset;
    var days := sod / SecondsPerDay;
    var rest := sod % SecondsPerDay;
    DaySplit(sod);
    ClockOf(rest);
    var date := AddDays(local.date, days);
    Civil(date, rest / 3600, rest % 3600 / 60, rest % 60, local.nanos)
  }

  /** A count of seconds as whole days and the seconds left in the last one. */
  lemma DaySplit(x: int)
    ensures x == x / SecondsPerDay * SecondsPerDay + x % SecondsPerDay
    ensures 0 <= x % SecondsPerDay < SecondsPerDay
  {
  }

  /** A count of seconds within a day as hours, minutes and seconds. */
  lemma ClockOf(r: int)
    requires 0 <= r < SecondsPerDay
    ensures 0 <= r / 3600 < 24 && 0 <= r % 3600 / 60 < 60 && 0 <= r % 60 < 60
    ensures r == r / 3600 * 3600 + r % 3600 / 60 * 60 + r % 60
  {
    var h, m := r / 3600, r % 3600;
    assert r == h * 3600 + m && 0 <= m < 3600;
    assert m == m / 60 * 60 + m % 60;
    assert m % 60 == r % 60 by {
      assert r == (h * 60 + m / 60) * 60 + m % 60;
    }
  }

  /** A reading taken in UTC is its own UTC reading. */
  lemma ToUTCAtZeroOffset(local: Civil)
    requires ValidCivil(local)
    ensures ToUTC(local, 0) == local
  {
    ClockSplit(local.hour, local.minute, local.second);
  }

  /** A time of day is recovered from its count of seconds. */
  lemma ClockSplit(h: int, m: int, s: int)
    requires 0 <= h < 24 && 0 <= m < 60 && 0 <= s < 60
    ensures var r := h * 3600 + m * 60 + s;
      r / SecondsPerDay == 0 && r % SecondsPerDay == r && r / 3600 == h && r % 3600 / 60 == m && r % 60 == s
  {
    var r := h * 3600 + m * 60 + s;
    assert 0 <= r < SecondsPerDay;
    assert r % 3600 == m * 60 + s;
    assert r % 60 == s;
  }
}
