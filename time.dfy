/** Instants and spans as counts of 100-nanosecond ticks, the unit of .NET's
  * DateTime, DateTimeOffset and TimeSpan. */
module Time {

  const TicksPerSecond: int := 10_000_000
  const TicksPerMinute: int := 60 * TicksPerSecond
  const TicksPerHour: int := 60 * TicksPerMinute
  const TicksPerDay: int := 24 * TicksPerHour

  /** DateTime.MinValue (0001-01-01) and DateTime.MaxValue (9999-12-31,
    * last tick). */
  const MinValue: int := 0
  const MaxValue: int := 3_155_378_975_999_999_999

  /** File.GetLastWriteTimeUtc of a file that does not exist:
    * 1601-01-01T00:00:00Z. */
  const MissingFileTime: int := 504_911_232_000_000_000

  predicate InRange(t: int)
  {
    MinValue <= t <= MaxValue
  }

  /** C# integer division, which truncates toward zero: the quotient is
    * the multiple of b nearest a on the side of zero. */
  function TruncDiv(a: int, b: int): (q: int)
    requires b > 0
    ensures a >= 0 ==> q * b <= a < q * b + b
    ensures a < 0 ==> q * b - b < a <= q * b
  {
    if a >= 0 then a / b else -((-a) / b)
  }

  /** C# remainder, which takes the sign of the dividend. */
  function TruncMod(a: int, b: int): (r: int)
    requires b > 0
    ensures a == TruncDiv(a, b) * b + r
    ensures -b < r < b
    ensures a >= 0 ==> r >= 0
    ensures a <= 0 ==> r <= 0
  {
    a - TruncDiv(a, b) * b
  }
}
