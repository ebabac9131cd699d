/** Instants are integer wall-clock seconds in the user's time zone: a local
    `Date` built from year, month, day, hour, minute and second compares like
    the number of seconds since an epoch day in that zone. The calendar day that
    `toISOString().slice(0, 10)` prints is the UTC day, which sits `utcOffset`
    seconds away from the wall clock (negative west of Greenwich). */
module Clock {

  const SecondsPerDay: int := 86400

  /** The wall-clock instant of `hour:minute:second` on day number `day`. */
  function At(day: int, hour: int, minute: int, second: int): int {
    day * SecondsPerDay + hour * 3600 + minute * 60 + second
  }

  /** The day number of the UTC calendar date printed by `toISOString()`. */
  function IsoDay(wall: int, utcOffset: int): (d: int)
    ensures At(d, 0, 0, 0) <= wall - utcOffset < At(d + 1, 0, 0, 0)
  {
    (wall - utcOffset) / SecondsPerDay
  }

  /** A later instant never has an earlier UTC day. */
  lemma IsoDayMonotone(a: int, b: int, utcOffset: int)
    requires a <= b
    ensures IsoDay(a, utcOffset) <= IsoDay(b, utcOffset)
  {
  }
}
