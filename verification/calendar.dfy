/**
 * The proleptic Gregorian calendar of Python's `datetime`, and the exact
 * arithmetic behind `utcnow - timestamp > timedelta(seconds=n)`.
 */
module Calendar {
  import opened Wrappers
  import opened Errors
  import opened Text

  /** A naive `datetime.datetime`. */
  datatype DateTime = DateTime(year: int, month: int, day: int,
                               hour: int, minute: int, second: int, microsecond: int)

  predicate IsLeap(year: int) {
    year % 4 == 0 && (year % 100 != 0 || year % 400 == 0)
  }

  function DaysInMonth(year: int, month: int): int {
    if month == 2 then (if IsLeap(year) then 29 else 28)
    else if month == 4 || month == 6 || month == 9 || month == 11 then 30
    else 31
  }

  /** The ranges a `datetime` constructor accepts (it raises ValueError otherwise). */
  predicate Valid(dt: DateTime) {
    && 1 <= dt.year <= 9999
    && 1 <= dt.month <= 12
    && 1 <= dt.day <= DaysInMonth(dt.year, dt.month)
    && 0 <= dt.hour <= 23
    && 0 <= dt.minute <= 59
    && 0 <= dt.second <= 59
    && 0 <= dt.microsecond <= 999999
  }

  function DaysBeforeYear(year: int): int {
    var y := year - 1;
    365 * y + y / 4 - y / 100 + y / 400
  }

  function DaysBeforeMonth(year: int, month: int): int
    decreases month
  {
    if month <= 1 then 0 else DaysBeforeMonth(year, month - 1) + DaysInMonth(year, month - 1)
  }

  const MicrosPerSecond: int := 1000000

  /** Microseconds since 0001-01-01T00:00:00, the epoch of `date.toordinal`. */
  function EpochMicros(dt: DateTime): int {
    var days := DaysBeforeYear(dt.year) + DaysBeforeMonth(dt.year, dt.month) + dt.day - 1;
    (((days * 24 + dt.hour) * 60 + dt.minute) * 60 + dt.second) * MicrosPerSecond + dt.microsecond
  }

  /**
   * `now - t` in microseconds, for a timestamp `t` given in whole seconds since
   * the same epoch (the provider's timestamps carry no sub-second part).
   */
  function Elapsed(now: DateTime, t: int): int {
    EpochMicros(now) - t * MicrosPerSecond
  }

  const SecondsPerDay := 86400

  /** `timedelta.max.days`: no timedelta spans more days than this, either way. */
  const MaxDeltaDays := 999999999

  /**
   * `datetime.timedelta(seconds=n)` for a whole number of seconds: the seconds
   * it holds, or the OverflowError raised when its day count `n // 86400` has a
   * magnitude above 999999999 (a day count beyond a C int already fails when it
   * is converted to one).
   */
  function Timedelta(seconds: int): (r: Result<int, Error>)
    ensures r.Success? <==> -MaxDeltaDays * SecondsPerDay <= seconds < (MaxDeltaDays + 1) * SecondsPerDay
    ensures r.Success? ==> r.value == seconds
    ensures r.Failure? ==> r.error.OverflowError?
  {
    // Euclidean division by a positive divisor is Python's floor division.
    var days := seconds / SecondsPerDay;
    if -MaxDeltaDays <= days <= MaxDeltaDays then Success(seconds)
    else if -0x8000_0000 <= days < 0x8000_0000 then
      Failure(OverflowError("days=" + IntText(days) + "; must have magnitude <= 999999999"))
    else Failure(OverflowError("Python int too large to convert to C int"))
  }

  /** `timedelta(seconds=n)` in microseconds. */
  function Window(seconds: int): int {
    seconds * MicrosPerSecond
  }
}
