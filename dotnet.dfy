/**
 * The parts of the .NET base library and of C# arithmetic that the NTP client
 * relies on, stated exactly enough to reason about its results: fixed-width
 * integers, `BitConverter.ToUInt32` on a little-endian host, and `DateTime`
 * as a count of 100-nanosecond ticks since 0001-01-01T00:00:00.
 */
module DotNet {
  import opened Wrappers

  // ---------------------------------------------------------------------
  // C# integer widths
  // ---------------------------------------------------------------------

  const TwoTo32: int := 0x1_0000_0000
  const TwoTo64: int := 0x1_0000_0000_0000_0000
  const LongMin: int := -0x8000_0000_0000_0000
  const LongMax: int := 0x7fff_ffff_ffff_ffff

  /** C# `ulong`. */
  type ULong = x: int | 0 <= x < TwoTo64

  /** C# `long`; also the representation of a `TimeSpan` (its Ticks). */
  type Long = x: int | LongMin <= x <= LongMax

  /** `a * b` on `ulong` in an unchecked context: wraps modulo 2^64. */
  function ULongMul(a: ULong, b: ULong): ULong
  {
    (a * b) % TwoTo64
  }

  /** `a + b` on `ulong` in an unchecked context: wraps modulo 2^64. */
  function ULongAdd(a: ULong, b: ULong): ULong
  {
    (a + b) % TwoTo64
  }

  /** The unchecked cast `(long)x` keeps the 64 bits and reinterprets them. */
  function LongFromULong(x: ULong): (r: Long)
    ensures x <= LongMax ==> r == x
    ensures x > LongMax ==> r < 0
    ensures r % TwoTo64 == x % TwoTo64
  {
    if x <= LongMax then x else x - TwoTo64
  }

  /**
   * `x / 2` on `long`: C# integer division truncates toward zero, so the
   * result is the half of `x` rounded toward zero, never toward minus infinity.
   */
  function Halve(x: Long): (r: Long)
    ensures 0 <= x ==> 0 <= r && 2 * r <= x <= 2 * r + 1
    ensures x <= 0 ==> r <= 0 && 2 * r - 1 <= x <= 2 * r
  {
    var n: int := x;
    if n >= 0 then n / 2 else -((-n) / 2)
  }

  // ---------------------------------------------------------------------
  // Bytes of an unsigned integer, and BitConverter
  // ---------------------------------------------------------------------

  /** Byte `i` of `w`, counting from the least significant byte. */
  function ByteOf(w: bv64, i: nat): bv8
    requires i < 8
  {
    var shifted := if i == 0 then w else if i == 1 then w >> 8 else if i == 2 then w >> 16
      else if i == 3 then w >> 24 else if i == 4 then w >> 32 else if i == 5 then w >> 40
      else if i == 6 then w >> 48 else w >> 56;
    (shifted & 0xff) as bv8
  }

  /**
   * `BitConverter.ToUInt32(value, startIndex)` on a little-endian host: the
   * byte at `startIndex + i` becomes byte `i` of the result.
   * The library throws when fewer than four bytes follow `startIndex`; the
   * client only calls it after checking the reply's length.
   */
  function ToUInt32(value: seq<bv8>, startIndex: nat): bv32
    requires startIndex + 4 <= |value|
  {
    (value[startIndex] as bv32)
    | ((value[startIndex + 1] as bv32) << 8)
    | ((value[startIndex + 2] as bv32) << 16)
    | ((value[startIndex + 3] as bv32) << 24)
  }

  /** Little-endian layout: the four bytes in memory order are bytes 0..3 of the value. */
  lemma ToUInt32LittleEndian(value: seq<bv8>, startIndex: nat)
    requires startIndex + 4 <= |value|
    ensures ByteOf(ToUInt32(value, startIndex) as bv64, 0) == value[startIndex]
    ensures ByteOf(ToUInt32(value, startIndex) as bv64, 1) == value[startIndex + 1]
    ensures ByteOf(ToUInt32(value, startIndex) as bv64, 2) == value[startIndex + 2]
    ensures ByteOf(ToUInt32(value, startIndex) as bv64, 3) == value[startIndex + 3]
  {
  }

  // ---------------------------------------------------------------------
  // DateTime and TimeSpan, as tick counts
  // ---------------------------------------------------------------------

  const TicksPerMillisecond: int := 10_000
  const TicksPerSecond: int := 10_000_000
  const TicksPerDay: int := 864_000_000_000
  /** `DateTime.MaxValue.Ticks`, the last tick of 9999-12-31. */
  const MaxTicks: int := 3_155_378_975_999_999_999
  /** The largest millisecond count `AddMilliseconds` accepts (10000 years). */
  const MaxMillis: int := 315_537_897_600_000

  /** A `DateTime`, by its Ticks. */
  type DateTime = t: int | 0 <= t <= MaxTicks

  /** `DateTime.MinValue`, 0001-01-01T00:00:00. */
  const MinValue: DateTime := 0

  predicate IsLeapYear(year: int)
  {
    year % 4 == 0 && (year % 100 != 0 || year % 400 == 0)
  }

  function DaysInYear(year: int): int
  {
    if IsLeapYear(year) then 366 else 365
  }

  /** Days in `year` before the first day of `month`, month 13 standing for the year's end. */
  function DaysToMonth(year: int, month: int): int
    requires 1 <= month <= 13
  {
    var table := if IsLeapYear(year)
      then [0, 31, 60, 91, 121, 152, 182, 213, 244, 274, 305, 335, 366]
      else [0, 31, 59, 90, 120, 151, 181, 212, 243, 273, 304, 334, 365];
    table[month - 1]
  }

  function DaysInMonth(year: int, month: int): int
    requires 1 <= month <= 12
  {
    DaysToMonth(year, month + 1) - DaysToMonth(year, month)
  }

  /** Days from 0001-01-01 to the first day of `year`, counted year by year. */
  function DaysBeforeYear(year: int): int
    requires year >= 1
  {
    if year == 1 then 0 else DaysBeforeYear(year - 1) + DaysInYear(year - 1)
  }

  /** The Gregorian leap-year rule, summed: the closed form .NET uses for whole years. */
  lemma {:induction false} DaysBeforeYearClosedForm(year: int)
    requires year >= 1
    ensures DaysBeforeYear(year) ==
      (year - 1) * 365 + (year - 1) / 4 - (year - 1) / 100 + (year - 1) / 400
  {
    if year > 1 {
      DaysBeforeYearClosedForm(year - 1);
      DaysInYearByQuotients(year - 1);
    }
  }

  /** One year's length, told by how the three quotients of the leap-year rule step. */
  lemma DaysInYearByQuotients(y: int)
    requires y >= 1
    ensures DaysInYear(y) == 365 + (y / 4 - (y - 1) / 4) - (y / 100 - (y - 1) / 100) + (y / 400 - (y - 1) / 400)
  {
    QuotientStep(y, 4);
    QuotientStep(y, 100);
    QuotientStep(y, 400);
    if y % 100 == 0 {
      DivisionIsUnique(y, 4, 25 * (y / 100), 0);
    }
    if y % 400 == 0 {
      DivisionIsUnique(y, 100, 4 * (y / 400), 0);
    }
  }

  /** Going from `y - 1` to `y`, the quotient by `d` grows by one exactly when `d` divides `y`. */
  lemma QuotientStep(y: int, d: int)
    requires y >= 1 && d > 1
    ensures y / d - (y - 1) / d == if y % d == 0 then 1 else 0
  {
    var q, r := (y - 1) / d, (y - 1) % d;
    if r == d - 1 {
      DivisionIsUnique(y, d, q + 1, 0);
    } else {
      DivisionIsUnique(y, d, q, r + 1);
    }
  }

  /** Euclidean division has one quotient and one remainder. */
  lemma DivisionIsUnique(y: int, d: int, q: int, s: int)
    requires d > 0 && 0 <= s < d && y == q * d + s
    ensures y / d == q && y % d == s
  {
    var q', s' := y / d, y % d;
    assert (q - q') * d == s' - s;
    if q > q' {
      assert (q - q') * d >= d by { MultiplyAtLeastOne(q - q', d); }
    } else if q < q' {
      assert (q' - q) * d >= d by { MultiplyAtLeastOne(q' - q, d); }
    }
  }

  lemma MultiplyAtLeastOne(k: int, d: int)
    requires k >= 1 && d > 0
    ensures k * d >= d
  {
  }

  /** A valid day of a month falls within its year. */
  lemma DayWithinYear(year: int, month: int, day: int)
    requires 1 <= month <= 12 && 1 <= day <= DaysInMonth(year, month)
    ensures 0 <= DaysToMonth(year, month) + day - 1 < DaysInYear(year)
  {
  }

  /**
   * `new DateTime(year, month, day)`: the ticks of midnight that day, or
   * `None` where the constructor throws ArgumentOutOfRangeException.
   */
  function DateToTicks(year: int, month: int, day: int): (r: Option<DateTime>)
    ensures r.Some? <==> 1 <= year <= 9999 && 1 <= month <= 12 && 1 <= day <= DaysInMonth(year, month)
    ensures r.Some? ==>
      r.value == (DaysBeforeYear(year) + DaysToMonth(year, month) + day - 1) * TicksPerDay
  {
    if 1 <= year <= 9999 && 1 <= month <= 12 && 1 <= day <= DaysInMonth(year, month) then
      var y := year - 1;
      var n := y * 365 + y / 4 - y / 100 + y / 400 + DaysToMonth(year, month) + day - 1;
      DayWithinYear(year, month, day);
      DaysBeforeYearClosedForm(year);
      assert n <= 3_652_058 by {
        assert y * 365 + y / 4 - y / 100 + y / 400 <= 3_651_694;
      }
      Some(n * TicksPerDay)
    else
      None
  }

  /**
   * `t.AddTicks(value)`, and equally `t + TimeSpan.FromTicks(value)`: the
   * library throws ArgumentOutOfRangeException (here `None`) when the sum
   * leaves the range of DateTime.
   */
  function AddTicks(t: DateTime, value: int): (r: Option<DateTime>)
    ensures r.Some? <==> 0 <= t + value <= MaxTicks
    ensures r.Some? ==> r.value == t + value
  {
    var ticks: int := t;
    if value > MaxTicks - ticks || value < -ticks then None else Some(ticks + value)
  }

  /**
   * `t.AddMilliseconds(value)` for a whole number of milliseconds (a `long`
   * converted to `double`, which holds it exactly below 2^53). The
   * library's guard on the millisecond count never decides the outcome by
   * itself: every count it refuses also takes the sum out of range.
   */
  function AddMilliseconds(t: DateTime, value: Long): (r: Option<DateTime>)
    ensures r.Some? <==> 0 <= t + value * TicksPerMillisecond <= MaxTicks
    ensures r.Some? ==> r.value == t + value * TicksPerMillisecond
  {
    if value > MaxMillis || value < -MaxMillis then None
    else AddTicks(t, value * TicksPerMillisecond)
  }

  /**
   * `t.ToLocalTime()` for a UTC (or unspecified) DateTime, given the offset
   * that the host's time-zone rules assign to that instant: the shifted
   * value, clamped to the range of DateTime.
   */
  function ToLocalTime(t: DateTime, utcOffset: Long): (r: DateTime)
    ensures 0 <= t + utcOffset <= MaxTicks ==> r == t + utcOffset
    ensures t + utcOffset > MaxTicks ==> r == MaxTicks
    ensures t + utcOffset < 0 ==> r == MinValue
  {
    var tick := t + utcOffset;
    if tick > MaxTicks then MaxTicks else if tick < 0 then MinValue else tick
  }
}
