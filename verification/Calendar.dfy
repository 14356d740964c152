/**
 Time values and repeat periods of the test scheduler.
 Times are counted in microseconds since the epoch once they leave `TimeVal`.
 */
module Calendar {
  import opened Arith

  const USEC := 1_000_000
  const DAY := 86_400

  datatype Period = Invalid | Hourly | Daily | Weekly

  /** `struct timeval`. */
  datatype TimeVal = TimeVal(sec: int, usec: int) {
    predicate Normal() {
      0 <= usec < USEC
    }

    function Us(): int {
      sec * USEC + usec
    }
  }

  /** The parts of a broken-down UTC time that the scheduler touches; the date is
      kept as a day number, so that moving `tm_mday` is moving `day`. */
  datatype Tm = Tm(day: int, hour: int, min: int, sec: int, wday: int)

  /** gmtime_r(): 1970-01-01 was a Thursday, and Sunday is day 0 of the week. */
  function GmTime(t: int): Tm {
    var day, rest := t / DAY, t % DAY;
    Tm(day, rest / 3600, rest % 3600 / 60, rest % 60, (day + 4) % 7)
  }

  /** timegm(): ignores `wday`, as the C function does. */
  function TimeGm(tm: Tm): int {
    tm.day * DAY + tm.hour * 3600 + tm.min * 60 + tm.sec
  }

  /** Breaking a time down and putting it together again gives it back; the parts are in their ranges, and
      the day of the week goes up by one each day from a Thursday. */
  lemma GmTimeUndone(t: int)
    ensures TimeGm(GmTime(t)) == t
    ensures var tm := GmTime(t); 0 <= tm.hour < 24 && 0 <= tm.min < 60 && 0 <= tm.sec < 60 && 0 <= tm.wday < 7
    ensures (GmTime(t).wday - 4 - GmTime(t).day) % 7 == 0
  {
    var rest := t % DAY;
    assert t == t / DAY * DAY + rest;
    assert rest == rest / 3600 * 3600 + rest % 3600 && rest % 3600 == rest % 3600 / 60 * 60 + rest % 3600 % 60;
    assert rest % 3600 % 60 == rest % 60;
  }

  /** Seconds in a repeat period. */
  function PeriodMaxValue(p: Period): int {
    match p
    case Hourly => 60 * 60
    case Daily => 60 * 60 * 24
    case Weekly => 60 * 60 * 24 * 7
    case Invalid => -1
  }

  /** Default time between runs, in seconds. */
  function PeriodDefaultFrequency(p: Period): int {
    match p
    case Hourly => 60
    case Daily => 60 * 10
    case Weekly => 60 * 60
    case Invalid => -1
  }

  /** Start, in seconds, of the period that holds `now`. */
  function PeriodStart(p: Period, now: int): int {
    var tm := GmTime(now).(sec := 0, min := 0);
    match p
    case Hourly => TimeGm(tm)
    case Weekly => TimeGm(tm.(hour := 0, day := tm.day - tm.wday))
    case _ => TimeGm(tm.(hour := 0))
  }

  function CheckTimeRange(value: int, p: Period): int {
    var max := PeriodMaxValue(p) * USEC;
    if max < 0 || value < 0 || value > max then -1 else value
  }

  /** The length of a period in microseconds. */
  function Length(p: Period): int {
    PeriodMaxValue(p) * USEC
  }

  /** The instant at which period number `i` begins. Weeks begin on Sundays, the first of which
      after the epoch is day 3. */
  function PeriodAt(p: Period, i: int): int {
    match p
    case Hourly => i * 3_600_000_000
    case Weekly => 259_200_000_000 + i * 604_800_000_000
    case _ => i * 86_400_000_000
  }

  /** The number of the period that holds an instant. */
  function PeriodIndex(p: Period, now: int): int {
    match p
    case Hourly => now / 3_600_000_000
    case Weekly => (now - 259_200_000_000) / 604_800_000_000
    case _ => now / 86_400_000_000
  }

  /** get_period_start() rounds down to a period boundary: the boundaries are equally spaced, the
      result is one of them, and it is the last one that is not after `now`. */
  lemma PeriodHolds(p: Period, now: int)
    requires p != Invalid
    ensures var i := PeriodIndex(p, now);
            && PeriodStart(p, now / USEC) * USEC == PeriodAt(p, i)
            && PeriodAt(p, i) <= now < PeriodAt(p, i) + Length(p)
  {
    match p
    case Hourly =>
      HourStart(now / USEC);
      DivTwice(now, USEC, 3600);
    case Daily =>
      DivTwice(now, USEC, DAY);
    case Weekly =>
      WeekStart(now / USEC);
      DivTwice(now - 259_200_000_000, USEC, 604_800);
      DivModUnique(now - 259_200_000_000, USEC, now / USEC - 259_200, now % USEC);
  }

  lemma HourStart(now: int)
    ensures PeriodStart(Hourly, now) == now / 3600 * 3600
  {
    var day, rest := now / DAY, now % DAY;
    DivModUnique(now, 3600, day * 24 + rest / 3600, rest % 3600);
  }

  lemma WeekStart(now: int)
    ensures PeriodStart(Weekly, now) == (now - 259_200) / 604_800 * 604_800 + 259_200
  {
    var day := now / DAY;
    var week := (day - 3) / 7;
    DivModUnique(day + 4, 7, week + 1, (day - 3) % 7);
    DivModUnique(now - 259_200, 604_800, week, (day - 3) % 7 * DAY + now % DAY);
  }

  /** Periods follow one another at the distance of their length. */
  lemma PeriodsInOrder(p: Period, i: int, j: int)
    requires p != Invalid && i < j
    ensures PeriodAt(p, i) + Length(p) <= PeriodAt(p, j)
    ensures j == i + 1 ==> PeriodAt(p, i) + Length(p) == PeriodAt(p, j)
  {
  }
}
