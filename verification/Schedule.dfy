/**
 The arithmetic of the test scheduler: from a clock reading to the next run of a repeating
 schedule. The specification is the set of slots of the schedule.
 */
module Schedule {
  import opened Options
  import opened Arith
  import opened Calendar

  /** Tests can start at most this much early, in microseconds. */
  const FUDGE := 100 * 1000

  /** The timing fields of a schedule entry; all times in microseconds. */
  datatype Entry = Entry(period: Period, start: int, end: int, freq: int) {
    /** What create_and_schedule_test() lets through. Nothing there orders `start` and `end`. */
    predicate Valid() {
      && period != Invalid
      && 0 <= start <= Length(period)
      && 0 <= end <= Length(period)
      && 0 <= freq
    }
  }

  /** The checks and defaults applied to the numbers of a schedule file. A negative `end` or `freq`
      stands for one that was not given. */
  function Configure(period: Period, start: int, end: int, freq: int): (r: Option<Entry>)
    ensures r.Some? ==> r.value.Valid()
    ensures r.Some? && end >= 0 ==> r.value.end == end
    ensures r.Some? && freq >= 0 ==> r.value.freq == freq
    ensures r.Some? ==> r.value.period == period && r.value.start == start
    ensures r.Some? && end < 0 ==> r.value.end == Length(period)
    ensures r.Some? && freq < 0 ==>
              r.value.freq == match period
                              case Hourly => 60_000_000
                              case Daily => 600_000_000
                              case _ => 3_600_000_000
    ensures r.None? <==>
            period == Invalid || start < 0 || start > Length(period) || end > Length(period) || freq > Length(period)
  {
    if period == Invalid || CheckTimeRange(start, period) < 0 then None
    else if end >= 0 && CheckTimeRange(end, period) < 0 then None
    else if freq >= 0 && CheckTimeRange(freq, period) < 0 then None
    else Some(Entry(period, start,
                    if end < 0 then PeriodMaxValue(period) * USEC else end,
                    if freq < 0 then PeriodDefaultFrequency(period) * USEC else freq))
  }

  // ---------------------------------------------------------------- slots

  /** `t` is slot `k` of the period that begins at `q`: the first slot of a period is always there,
      the repeats last until `end`. */
  ghost predicate SlotOf(s: Entry, q: int, k: int, t: int) {
    && t == q + s.start + k * s.freq
    && (k == 0 || (k > 0 && s.freq > 0 && s.start + k * s.freq <= s.end))
  }

  ghost predicate IsSlot(s: Entry, t: int) {
    exists i, k :: SlotOf(s, PeriodAt(s.period, i), k, t)
  }

  /** `t` is the first slot at or after `from`. */
  ghost predicate FirstSlotFrom(s: Entry, from: int, t: int) {
    && IsSlot(s, t)
    && from <= t
    && forall u :: IsSlot(s, u) && from <= u ==> t <= u
  }

  // ---------------------------------------------------------------- the computation, in microseconds

  /** The beginning of the period that holds `now`. */
  function Begin(s: Entry, now: int): int {
    PeriodAt(s.period, PeriodIndex(s.period, now))
  }

  /** Distance from the first slot of the period that begins at `q` to `now`. */
  function SinceFirst(s: Entry, q: int, now: int): int {
    now - q - s.start
  }

  /** Distance from `now` to the first slot of the period after the one that begins at `q`. */
  function ToNextPeriod(s: Entry, q: int, now: int): int {
    q + Length(s.period) + s.start - now
  }

  /** Distance from `now` to the next repeat, which a run that just happened can push back. */
  function ToRepeat(s: Entry, q: int, now: int, run: bool): int
    requires s.freq > 0
  {
    var d := s.freq - SinceFirst(s, q, now) % s.freq;
    if run && d < FUDGE then d + s.freq else d
  }

  /** There is another repeat inside the window of the period that begins at `q`. */
  predicate MoreRepeats(s: Entry, q: int, now: int, run: bool) {
    s.freq > 0 && now + ToRepeat(s, q, now, run) <= q + s.end
  }

  /** A repeat after the window is not a run of this period, and one inside it ends no later than the
      period. */
  lemma PeriodEndRedundant(sec: int, diff: int, periodEnd: int, testEnd: int)
    requires testEnd <= periodEnd * USEC && diff >= 0
    ensures sec + diff / USEC > periodEnd ==> sec * USEC + diff > testEnd
  {
  }

  /** The distance to the next run, on one microsecond axis. */
  function OffsetFrom(s: Entry, q: int, now: int, run: bool): int {
    var since := SinceFirst(s, q, now);
    if since < 0 then
      if run && -since < FUDGE then -since + (if s.freq > 0 then s.freq else Length(s.period)) else -since
    else if MoreRepeats(s, q, now, run) then ToRepeat(s, q, now, run)
    else ToNextPeriod(s, q, now)
  }

  function NextOffset(s: Entry, now: int, run: bool): int {
    OffsetFrom(s, Begin(s, now), now, run)
  }

  /** evutil_timeradd(). */
  function TimerAdd(a: TimeVal, b: TimeVal): TimeVal {
    var sec, usec := a.sec + b.sec, a.usec + b.usec;
    if usec >= USEC then TimeVal(sec + 1, usec - USEC) else TimeVal(sec, usec)
  }

  /** ADD_TV_PARTS. */
  method AddTvParts(tv: TimeVal, sec: int, usec: int) returns (r: TimeVal)
    requires tv.usec >= 0 && usec >= 0
    ensures r.Normal()
    ensures r.Us() == tv.Us() + sec * USEC + usec
  {
    r := TimeVal(tv.sec + sec, tv.usec + usec);
    while r.usec >= USEC
      invariant r.usec >= 0
      invariant r.Us() == tv.Us() + sec * USEC + usec
      decreases r.usec
    {
      r := TimeVal(r.sec + 1, r.usec - USEC);
    }
  }

  /** What the source falls back to when the offset makes no sense. */
  function NaiveOffset(s: Entry): TimeVal {
    TimeVal(if s.freq == 0 then PeriodMaxValue(s.period) else s.freq / USEC, 0)
  }

  /** A non-negative number of microseconds as a timer value. */
  function FromUs(us: int): (tv: TimeVal)
    requires us >= 0
    ensures tv.Normal() && tv.Us() == us && tv.sec >= 0
  {
    TimeVal(us / USEC, us % USEC)
  }

  /** The roll over to `start` of the period that begins at second `periodEnd`. */
  method RollOver(now: TimeVal, periodEnd: int, start: int) returns (next: TimeVal)
    requires now.Normal() && now.sec < periodEnd && start >= 0
    ensures next.Normal() && next.sec >= 0
    ensures next.Us() == periodEnd * USEC + start - now.Us()
  {
    next := TimeVal(periodEnd - now.sec, 0);
    if now.usec > 0 {
      next := TimeVal(next.sec - 1, USEC - now.usec);
    }
    next := AddTvParts(next, start / USEC, start % USEC);
  }

  /**
   get_next_schedule_time_internal(), on split seconds and microseconds as the source has it. The
   offset is the one of `NextOffset`, it is a proper timer value that lies ahead, and the naive
   fallback for offsets that went wrong is never taken.
   */
  method GetNextScheduleTime(now: TimeVal, s: Entry, run: bool)
    returns (next: TimeVal, abstime: TimeVal, naive: bool)
    requires now.Normal() && s.Valid()
    ensures next.Normal() && next.sec >= 0 && next.Us() > 0
    ensures next.Us() == NextOffset(s, now.Us(), run)
    ensures abstime.Normal() && abstime.Us() == now.Us() + next.Us()
    ensures !naive
  {
    DivModUnique(now.Us(), USEC, now.sec, now.usec);
    PeriodHolds(s.period, now.Us());
    assert Begin(s, now.Us()) == PeriodStart(s.period, now.sec) * USEC;
    next, abstime, naive := GetNextInPeriod(now, s, run, PeriodStart(s.period, now.sec));
  }

  /** The step to the next repeat, from the distance to the first slot of the period. */
  method FindRepeat(s: Entry, ghost q: int, ghost now: int, run: bool, since: int) returns (diff: int)
    requires s.freq > 0 && since == SinceFirst(s, q, now)
    ensures diff == ToRepeat(s, q, now, run) > 0
  {
    diff := since % s.freq;
    diff := s.freq - diff;
    if run && diff < FUDGE {
      diff := diff + s.freq;
    }
  }

  /** The part after the call of get_period_start(). */
  method GetNextInPeriod(now: TimeVal, s: Entry, run: bool, periodStart: int)
    returns (next: TimeVal, abstime: TimeVal, naive: bool)
    requires now.Normal() && s.Valid()
    requires periodStart <= now.sec < periodStart + PeriodMaxValue(s.period)
    ensures next.Normal() && next.sec >= 0 && next.Us() > 0
    ensures next.Us() == OffsetFrom(s, periodStart * USEC, now.Us(), run)
    ensures abstime.Normal() && abstime.Us() == now.Us() + next.Us()
    ensures !naive
  {
    next, naive := TimeVal(0, 0), false;
    var testEnd := periodStart * USEC + s.end;
    var diff := (now.sec - periodStart) * USEC + now.usec - s.start;

    if diff < 0 {
      diff := -diff;
      if run && diff < FUDGE {
        if s.freq > 0 {
          diff := diff + s.freq;
        } else {
          diff := diff + PeriodMaxValue(s.period) * USEC;
        }
      }
      next := FromUs(diff);
      abstime := TimerAdd(now, next);
      return;
    }

    var nextRepeat := s.freq == 0;
    if s.freq > 0 {
      diff := FindRepeat(s, periodStart * USEC, now.Us(), run, diff);
      next := FromUs(diff);
    }

    var periodEnd := periodStart + PeriodMaxValue(s.period);
    PeriodEndRedundant(now.sec, diff, periodEnd, testEnd);
    if nextRepeat || now.sec + diff / USEC > periodEnd || now.Us() + diff > testEnd {
      next := RollOver(now, periodEnd, s.start);
    }

    if next.sec < 0 || next.usec < 0 || next.usec >= USEC {
      naive := true;
      next := NaiveOffset(s);
    }
    abstime := TimerAdd(now, next);
  }

  // ---------------------------------------------------------------- next slot, test not run

  lemma SlotIsSlot(s: Entry, i: int, k: int)
    requires k == 0 || (k > 0 && s.freq > 0 && s.start + k * s.freq <= s.end)
    ensures IsSlot(s, PeriodAt(s.period, i) + s.start + k * s.freq)
  {
    assert SlotOf(s, PeriodAt(s.period, i), k, PeriodAt(s.period, i) + s.start + k * s.freq);
  }

  /** The slots of a period lie between its first slot and its end. */
  lemma SlotBounds(s: Entry, q: int, k: int, u: int)
    requires s.Valid() && SlotOf(s, q, k, u)
    ensures q + s.start <= u <= q + Length(s.period)
    ensures k > 0 ==> u >= q + s.start + s.freq
  {
    if k > 0 { MulMonotone(1, k, s.freq); }
  }

  /** Where the slots after `now` are, given that `now` lies in the period that begins at `q`: each is
      a slot of that period, or does not come before the first slot of the next period. */
  lemma SlotsAhead(s: Entry, now: int, u: int) returns (k: int)
    requires s.Valid() && IsSlot(s, u) && u > now
    ensures var q := Begin(s, now);
            u >= now + ToNextPeriod(s, q, now) || SlotOf(s, q, k, u)
  {
    PeriodHolds(s.period, now);
    var p := PeriodIndex(s.period, now);
    var i;
    i, k :| SlotOf(s, PeriodAt(s.period, i), k, u);
    SlotBounds(s, PeriodAt(s.period, i), k, u);
    if i < p {
      PeriodsInOrder(s.period, i, p);
      assert false;
    } else if i > p {
      PeriodsInOrder(s.period, p, i);
    }
  }

  /** The slots computed by `OffsetFrom` are slots. */
  lemma Candidates(s: Entry, now: int)
    requires s.Valid()
    ensures var q := Begin(s, now);
            && q <= now < q + Length(s.period)
            && IsSlot(s, q + s.start)
            && IsSlot(s, now + ToNextPeriod(s, q, now))
            && (s.freq > 0 && s.start + s.freq <= s.end ==> IsSlot(s, q + s.start + s.freq))
  {
    PeriodHolds(s.period, now);
    var p := PeriodIndex(s.period, now);
    PeriodsInOrder(s.period, p, p + 1);
    SlotIsSlot(s, p, 0);
    SlotIsSlot(s, p + 1, 0);
    if s.freq > 0 && s.start + s.freq <= s.end { SlotIsSlot(s, p, 1); }
  }

  lemma RepeatIsSlot(s: Entry, now: int, run: bool)
    requires s.Valid()
    requires SinceFirst(s, Begin(s, now), now) >= 0 && MoreRepeats(s, Begin(s, now), now, run)
    ensures IsSlot(s, now + ToRepeat(s, Begin(s, now), now, run))
  {
    var q := Begin(s, now);
    var since := SinceFirst(s, q, now);
    NextMultiple(since, s.freq, 0);
    var n := since / s.freq + 1;
    assert (n + 1) * s.freq == n * s.freq + s.freq;
    var k := if ToRepeat(s, q, now, run) == s.freq - since % s.freq then n else n + 1;
    assert now + ToRepeat(s, q, now, run) == q + s.start + k * s.freq;
    SlotIsSlot(s, PeriodIndex(s.period, now), k);
  }

  /** Of the slots of the current period, the code finds the first one after `now`. */
  lemma RepeatIsNext(s: Entry, q: int, now: int, k: int, u: int)
    requires s.Valid() && SlotOf(s, q, k, u) && u > now
    requires SinceFirst(s, q, now) >= 0
    ensures MoreRepeats(s, q, now, false)
    ensures u == now + ToRepeat(s, q, now, false) || u >= now + ToRepeat(s, q, now, false) + s.freq
    ensures u >= now + FUDGE ==>
              || ToRepeat(s, q, now, true) < FUDGE
              || (MoreRepeats(s, q, now, true) && u >= now + ToRepeat(s, q, now, true))
  {
    var since := SinceFirst(s, q, now);
    assert u - now + since == k * s.freq;
    assert k > 0;
    NextMultiple(since, s.freq, k);
  }

  /** Without a run to account for, the computed time is the first slot after `now`. */
  lemma NextIsFirstSlot(s: Entry, now: int)
    requires s.Valid()
    ensures FirstSlotFrom(s, now + 1, now + NextOffset(s, now, false))
  {
    var q := Begin(s, now);
    var t := now + NextOffset(s, now, false);
    Candidates(s, now);
    if SinceFirst(s, q, now) >= 0 && MoreRepeats(s, q, now, false) { RepeatIsSlot(s, now, false); }
    forall u | IsSlot(s, u) && now + 1 <= u
      ensures t <= u
    {
      var k := SlotsAhead(s, now, u);
      if SlotOf(s, q, k, u) {
        SlotBounds(s, q, k, u);
        if SinceFirst(s, q, now) >= 0 { RepeatIsNext(s, q, now, k, u); }
      }
    }
  }

  /** The scheduled time lies ahead whatever `run` says. */
  lemma NextIsAhead(s: Entry, now: int, run: bool)
    requires s.Valid()
    ensures NextOffset(s, now, run) > 0
  {
    PeriodHolds(s.period, now);
  }

  // ---------------------------------------------------------------- next slot, test just run

  /**
   What a caller can check to know that the time computed after a run is right: the three ways it
   goes wrong are an early first run whose repeat lies outside the window, repeats closer together
   than the fudge, and a period that begins within the fudge.
   */
  predicate FudgeKept(s: Entry, now: int) {
    var q := Begin(s, now);
    var since := SinceFirst(s, q, now);
    if since < 0 then
      || -since >= FUDGE
      || s.freq == 0
      || (-since + s.freq >= FUDGE && (s.start + s.freq <= s.end || s.freq == Length(s.period)))
    else if s.freq > 0 && since + s.start + Pushed(s.freq - since % s.freq, s.freq) <= s.end then
      s.freq - since % s.freq + s.freq >= FUDGE
    else
      q + Length(s.period) + s.start - now >= FUDGE
  }

  /** The distance to a repeat, or to the one after it when it falls inside the fudge. */
  function Pushed(distance: int, freq: int): int {
    if distance < FUDGE then distance + freq else distance
  }

  /** After a run the computed time is the first slot at least the fudge away, exactly when
      `FudgeKept` holds. */
  lemma NextAfterRunIff(s: Entry, now: int)
    requires s.Valid()
    ensures FirstSlotFrom(s, now + FUDGE, now + NextOffset(s, now, true)) <==> FudgeKept(s, now)
  {
    if FudgeKept(s, now) {
      NextAfterRun(s, now);
    } else {
      NextAfterRunWrong(s, now);
    }
  }

  lemma NextAfterRun(s: Entry, now: int)
    requires s.Valid() && FudgeKept(s, now)
    ensures FirstSlotFrom(s, now + FUDGE, now + NextOffset(s, now, true))
  {
    var q := Begin(s, now);
    var t := now + NextOffset(s, now, true);
    Candidates(s, now);
    if SinceFirst(s, q, now) >= 0 && MoreRepeats(s, q, now, true) { RepeatIsSlot(s, now, true); }
    assert IsSlot(s, t) && now + FUDGE <= t;
    forall u | IsSlot(s, u) && now + FUDGE <= u
      ensures t <= u
    {
      var k := SlotsAhead(s, now, u);
      if SlotOf(s, q, k, u) {
        if SinceFirst(s, q, now) >= 0 {
          RepeatIsNext(s, q, now, k, u);
        } else {
          EarlyRepeat(s, q, now, k, u);
        }
      }
    }
  }

  lemma EarlyRepeat(s: Entry, q: int, now: int, k: int, u: int)
    requires s.Valid() && SinceFirst(s, q, now) < 0 && SlotOf(s, q, k, u) && now + FUDGE <= u
    ensures u >= q + s.start
    ensures -SinceFirst(s, q, now) < FUDGE ==> s.freq > 0 && u >= q + s.start + s.freq
  {
    SlotBounds(s, q, k, u);
  }

  lemma NextAfterRunWrong(s: Entry, now: int)
    requires s.Valid() && !FudgeKept(s, now)
    ensures !FirstSlotFrom(s, now + FUDGE, now + NextOffset(s, now, true))
  {
    var q := Begin(s, now);
    var t := now + NextOffset(s, now, true);
    Candidates(s, now);
    if SinceFirst(s, q, now) < 0 && t >= now + FUDGE && IsSlot(s, t) {
      var k := SlotsAhead(s, now, t);
      if SlotOf(s, q, k, t) {
        assert false;
      }
      assert now + FUDGE <= now + ToNextPeriod(s, q, now) < t;
    }
  }

  /** When no slot falls inside the fudge, it does not matter that the test has just run. */
  lemma RunFlagIrrelevant(s: Entry, now: int)
    requires s.Valid() && NextOffset(s, now, false) >= FUDGE
    ensures NextOffset(s, now, true) == NextOffset(s, now, false)
  {
  }

  /** The early branch ignores `end`: an hourly test allowed to run only at one second past the hour,
      10 ms early, is sent to a time that is no slot. */
  lemma EarlyRunLeavesWindow()
    ensures var s := Entry(Hourly, 1_000_000, 1_000_000, 60_000_000);
            s.Valid() && !IsSlot(s, 990_000 + NextOffset(s, 990_000, true))
  {
    var s := Entry(Hourly, 1_000_000, 1_000_000, 60_000_000);
    var t := 990_000 + NextOffset(s, 990_000, true);
    assert t == 61_000_000;
    if IsSlot(s, t) {
      var k := SlotsAhead(s, 990_000, t);
      assert false;
    }
  }

  /** The rollover ignores the fudge: an hourly test run 10 ms before the hour is sent to the hour. */
  lemma RolloverInsideFudge()
    ensures var s := Entry(Hourly, 0, 3_600_000_000, 60_000_000);
            s.Valid() && NextOffset(s, 3_599_990_000, true) == 10_000
  {
  }
}
