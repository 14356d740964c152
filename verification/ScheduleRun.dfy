/**
 The run loop of the test scheduler: an event fires, the test is run unless it is too early, and the
 event is put back for the next time. Each firing reads the clock twice: to see whether it is too early,
 and, when the test has been started, to plan the next run.
 */
module ScheduleRun {
  import opened Arith
  import opened Calendar
  import opened Schedule

  /** The event of a test fires: the readings of the clock at the check and at the planning; starting the
      process may fail. */
  datatype Firing = Firing(check: int, now: int, forks: bool)

  /** What the loop holds, in microseconds: the time the test is meant to run next, the last clock
      reading and the times, in order, for which it was run. */
  datatype Loop = Loop(abstime: int, clock: int, ran: seq<int>)

  /** fork_test() sends the event back when it comes more than the fudge too soon. */
  predicate TooEarly(abstime: int, now: int) {
    now + FUDGE < abstime
  }

  /** One firing of run_scheduled_test(). */
  function Step(s: Entry, l: Loop, f: Firing): Loop {
    var run := f.forks && !TooEarly(l.abstime, f.check);
    Loop(f.now + NextOffset(s, f.now, run), f.now, if run then l.ran + [l.abstime] else l.ran)
  }

  /** The loop of an entry that was scheduled at `t0`, after the given firings. */
  function Run(s: Entry, t0: int, fs: seq<Firing>): Loop {
    if fs == [] then Loop(t0 + NextOffset(s, t0, false), t0, [])
    else Step(s, Run(s, t0, fs[..|fs| - 1]), fs[|fs| - 1])
  }

  /** A scheduled test, with the field that each firing overwrites. */
  class TestItem {
    const entry: Entry
    var abstime: TimeVal

    ghost predicate Valid()
      reads this
    {
      entry.Valid() && abstime.Normal()
    }

    /** The end of create_and_schedule_test(). */
    constructor (entry: Entry, now: TimeVal)
      requires entry.Valid() && now.Normal()
      ensures Valid() && this.entry == entry
      ensures abstime.Us() == Run(entry, now.Us(), []).abstime
    {
      this.entry := entry;
      var next, at, naive := GetNextScheduleTime(now, entry, false);
      abstime := at;
    }

    method ForkTest(now: TimeVal, forks: bool) returns (run: bool)
      requires Valid() && now.Normal()
      ensures run == (forks && !TooEarly(abstime.Us(), now.Us()))
    {
      if now.sec < abstime.sec || (now.sec == abstime.sec && now.usec < abstime.usec) {
        var early := if abstime.usec < now.usec
          then TimeVal(abstime.sec - now.sec - 1, abstime.usec - now.usec + USEC)
          else TimeVal(abstime.sec - now.sec, abstime.usec - now.usec);
        if early.sec != 0 || early.usec > FUDGE {
          return false;
        }
      }
      run := forks;
    }

    /** Refines `Step`: the item moves as the loop does, for any history behind it. */
    method RunScheduledTest(check: TimeVal, now: TimeVal, forks: bool, ghost l: Loop)
      returns (run: bool, next: TimeVal)
      requires Valid() && check.Normal() && now.Normal() && l.abstime == abstime.Us()
      modifies this
      ensures Valid()
      ensures abstime.Us() == Step(entry, l, Firing(check.Us(), now.Us(), forks)).abstime
      ensures run <==> Step(entry, l, Firing(check.Us(), now.Us(), forks)).ran == l.ran + [l.abstime]
      ensures !run <==> Step(entry, l, Firing(check.Us(), now.Us(), forks)).ran == l.ran
      ensures next.Normal() && next.sec >= 0 && now.Us() + next.Us() == abstime.Us() > now.Us()
    {
      run := ForkTest(check, forks);
      var at, naive;
      next, at, naive := GetNextScheduleTime(now, entry, run);
      abstime := at;
      assert |l.ran + [l.abstime]| != |l.ran|;
    }
  }

  // ---------------------------------------------------------------- single firings

  ghost predicate SlotBetween(s: Entry, from: int, to: int) {
    exists u :: IsSlot(s, u) && from < u < to
  }

  /** A firing that comes too early runs nothing and, as long as the planned time is still ahead when the
      next run is planned, moves the test to the first slot ahead. */
  lemma EarlyFiring(s: Entry, l: Loop, f: Firing)
    requires s.Valid() && IsSlot(s, l.abstime) && TooEarly(l.abstime, f.check) && f.now < l.abstime
    ensures var l' := Step(s, l, f);
            && l'.ran == l.ran
            && FirstSlotFrom(s, f.now + 1, l'.abstime)
            && l'.abstime <= l.abstime
            && (l'.abstime == l.abstime <==> !SlotBetween(s, f.now, l.abstime))
  {
    NextIsFirstSlot(s, f.now);
    var t := Step(s, l, f).abstime;
    if t < l.abstime {
      assert IsSlot(s, t) && f.now < t < l.abstime;
    }
  }

  /** When the fudge is kept, at most one slot falls inside it. */
  lemma OneSlotInFudge(s: Entry, c: int, u: int)
    requires s.Valid() && FudgeKept(s, c) && IsSlot(s, u) && c < u < c + FUDGE
    ensures u == c + NextOffset(s, c, false)
  {
    var q := Begin(s, c);
    PeriodHolds(s.period, c);
    var k := SlotsAhead(s, c, u);
    if SlotOf(s, q, k, u) {
      SlotBounds(s, q, k, u);
      if SinceFirst(s, q, c) >= 0 {
        RepeatIsNext(s, q, c, k, u);
      }
    }
  }

  /** A test that ran at `c` and whose event fires early at `now`: the planned time survives unless
      the run came within the fudge of a slot that is still ahead. */
  lemma EarlyAfterRunIff(s: Entry, c: int, now: int)
    requires s.Valid() && FudgeKept(s, c) && c <= now
    requires TooEarly(c + NextOffset(s, c, true), now)
    ensures now + NextOffset(s, now, false) == c + NextOffset(s, c, true) <==>
            NextOffset(s, c, false) >= FUDGE || c + NextOffset(s, c, false) <= now
  {
    var planned, skipped := c + NextOffset(s, c, true), c + NextOffset(s, c, false);
    var t := now + NextOffset(s, now, false);
    NextAfterRunIff(s, c);
    NextIsFirstSlot(s, c);
    NextIsFirstSlot(s, now);
    assert IsSlot(s, planned) && IsSlot(s, skipped) && IsSlot(s, t);
    assert t <= planned;
    if skipped < c + FUDGE && t != planned {
      assert t < c + FUDGE;
      OneSlotInFudge(s, c, t);
    }
  }

  /** Of an hourly test that repeats every minute: after a run less than the fudge before a slot, an
      early firing moves the planned time back by a minute. */
  lemma EarlyFiringMovesBack(s: Entry, c: int)
    requires s == Entry(Hourly, 0, 3_600_000_000, 60_000_000)
    requires 60_000_000 - FUDGE < c < 60_000_000 - 1
    ensures s.Valid() && FudgeKept(s, c)
    ensures c + NextOffset(s, c, true) == 120_000_000
    ensures TooEarly(120_000_000, c + 1)
    ensures c + 1 + NextOffset(s, c + 1, false) == 60_000_000
  {
    DivModUnique(c, 3_600_000_000, 0, c);
    DivModUnique(c + 1, 3_600_000_000, 0, c + 1);
    DivModUnique(c, 60_000_000, 0, c);
    DivModUnique(c + 1, 60_000_000, 0, c + 1);
  }

  /** An event that fires within the fudge before its slot runs the test, and, when the next run is
      planned still before the slot, runs it again for the same slot in just two cases: the planning was
      early by the whole fudge, or the slot is the first one of a period that has not begun. */
  lemma RunsAgainIff(s: Entry, l: Loop, f: Firing)
    requires s.Valid() && f.forks && l.abstime <= f.check + FUDGE && f.check <= f.now
    requires FirstSlotFrom(s, f.now + 1, l.abstime)
    ensures var l' := Step(s, l, f);
            && l'.ran == l.ran + [l.abstime]
            && l'.abstime >= l.abstime
            && (l'.abstime == l.abstime <==>
                l.abstime == f.now + FUDGE || l.abstime == f.now + ToNextPeriod(s, Begin(s, f.now), f.now))
  {
    NextIsFirstSlot(s, f.now);
    PeriodHolds(s.period, f.now);
    assert l.abstime == f.now + NextOffset(s, f.now, false);
  }

  // ---------------------------------------------------------------- whole runs

  ghost predicate Increasing(xs: seq<int>) {
    forall i, j :: 0 <= i < j < |xs| ==> xs[i] < xs[j]
  }

  /** The clock never runs back, and an event fires on time or more than the fudge early. */
  ghost predicate Admissible(s: Entry, t0: int, fs: seq<Firing>) {
    fs == [] ||
    var l, f := Run(s, t0, fs[..|fs| - 1]), fs[|fs| - 1];
    && Admissible(s, t0, fs[..|fs| - 1])
    && l.clock <= f.check <= f.now
    && (l.abstime <= f.check || TooEarly(l.abstime, f.check))
  }

  /** In every admissible run, no matter how late its firings are, the times run for strictly
      increase, so no slot runs twice, and none runs before its time. */
  lemma {:induction false} NoSlotRunsTwice(s: Entry, t0: int, fs: seq<Firing>)
    requires s.Valid() && Admissible(s, t0, fs)
    ensures var l := Run(s, t0, fs);
            && Increasing(l.ran)
            && (forall i :: 0 <= i < |l.ran| ==> l.ran[i] <= l.clock)
            && l.clock < l.abstime
  {
    if fs == [] {
      NextIsAhead(s, t0, false);
    } else {
      NoSlotRunsTwice(s, t0, fs[..|fs| - 1]);
      var l, f := Run(s, t0, fs[..|fs| - 1]), fs[|fs| - 1];
      NextIsAhead(s, f.now, f.forks && !TooEarly(l.abstime, f.check));
    }
  }

  /** Every firing on time starts the test, and does so at least the fudge before the slot that
      follows the one it runs; one that is too early is over before the planned time. */
  ghost predicate Punctual(s: Entry, t0: int, fs: seq<Firing>) {
    fs == [] ||
    var l, f := Run(s, t0, fs[..|fs| - 1]), fs[|fs| - 1];
    && Punctual(s, t0, fs[..|fs| - 1])
    && (l.abstime <= f.check ==> f.forks && forall u :: IsSlot(s, u) && l.abstime < u ==> f.now + FUDGE <= u)
    && (TooEarly(l.abstime, f.check) ==> f.now < l.abstime)
  }

  /** In a punctual run the test has run for exactly the slots between its start and the planned
      time, in order, and the planned time is the first slot ahead of the clock. */
  lemma {:induction false} NoSlotIsMissed(s: Entry, t0: int, fs: seq<Firing>)
    requires s.Valid() && Admissible(s, t0, fs) && Punctual(s, t0, fs)
    ensures var l := Run(s, t0, fs);
            && FirstSlotFrom(s, l.clock + 1, l.abstime)
            && t0 <= l.clock
            && Increasing(l.ran)
            && (forall t :: t in l.ran <==> IsSlot(s, t) && t0 < t < l.abstime)
  {
    if fs == [] {
      NextIsFirstSlot(s, t0);
    } else {
      NoSlotIsMissed(s, t0, fs[..|fs| - 1]);
      NoSlotRunsTwice(s, t0, fs);
      var l, f := Run(s, t0, fs[..|fs| - 1]), fs[|fs| - 1];
      NextIsFirstSlot(s, f.now);
      if l.abstime <= f.check {
        RunFlagIrrelevant(s, f.now);
        RunExtends(s, t0, l, Run(s, t0, fs));
      } else {
        EarlyFiring(s, l, f);
      }
    }
  }

  /** Running the planned slot moves on to the slot that follows it. */
  lemma RunExtends(s: Entry, t0: int, l: Loop, l': Loop)
    requires FirstSlotFrom(s, l.clock + 1, l.abstime) && t0 <= l.clock
    requires forall t :: t in l.ran <==> IsSlot(s, t) && t0 < t < l.abstime
    requires l'.ran == l.ran + [l.abstime]
    requires FirstSlotFrom(s, l'.clock + 1, l'.abstime) && l.abstime <= l'.clock
    requires forall u :: IsSlot(s, u) && l.abstime < u ==> l'.clock + FUDGE <= u
    ensures forall t :: t in l'.ran <==> IsSlot(s, t) && t0 < t < l'.abstime
  {
    forall t
      ensures t in l'.ran <==> IsSlot(s, t) && t0 < t < l'.abstime
    {
      assert t in l'.ran <==> t in l.ran || t == l.abstime;
    }
  }
}
