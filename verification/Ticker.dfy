/**
 The display ticker of crates/daemon/src/server.rs: one thread that redraws at a fixed interval, counts
 the frames it was too late for, and sleeps until whatever is due first.
 */
module Ticker {
  import opened Basics

  const TICK_POLL: nat := 50 * NANOS_PER_MILLI
  const TICK_FLOOR: nat := 1 * NANOS_PER_MILLI

  /** The deadline, and what the daemon was asked to do so far. */
  datatype Clock = Clock(next: Instant, ticks: nat, dropped: nat)

  /** The k-th point of the grid that starts when the ticker does. */
  function Boundary(start: Instant, interval: nat, k: nat): Instant { start + k * interval }

  /** Before anything ran. */
  function Started(start: Instant, interval: nat): Clock { Clock(start + interval, 0, 0) }

  /** One wake-up: late frames are dropped in one go, and a single redraw follows. */
  function Woken(c: Clock, interval: nat, now: Instant): Clock
    requires interval > 0
  {
    if now < c.next then c
    else
      var missed := (now - c.next) / interval;
      Clock(c.next + (missed + 1) * interval, c.ticks + 1, c.dropped + missed)
  }

  function Run(start: Instant, interval: nat, wakes: seq<Instant>): Clock
    requires interval > 0
  {
    if wakes == [] then Started(start, interval)
    else Woken(Run(start, interval, wakes[..|wakes| - 1]), interval, wakes[|wakes| - 1])
  }

  // ---------------------------------------------------------------- conservation

  lemma WakingKeepsTheGrid(c: Clock, start: Instant, interval: nat, now: Instant)
    requires interval > 0 && c.next == Boundary(start, interval, c.ticks + c.dropped + 1)
    ensures var d := Woken(c, interval, now);
      && d.next == Boundary(start, interval, d.ticks + d.dropped + 1)
      && now < d.next
      && (c.next <= now ==> d.next <= now + interval)
  {
    if c.next <= now {
      var missed := (now - c.next) / interval;
      assert missed * interval <= now - c.next < (missed + 1) * interval;
      assert (c.ticks + c.dropped + 1) * interval + (missed + 1) * interval
          == (c.ticks + c.dropped + 1 + missed + 1) * interval;
    }
  }

  /** A wake-up at or past the deadline redraws once, however late it is, and drops exactly the boundaries that lie
      whole intervals behind; one before it does nothing. */
  lemma AWakeRedrawsOnce(c: Clock, interval: nat, now: Instant, late: nat)
    requires interval > 0
    requires c.next <= now ==> late * interval <= now - c.next < late * interval + interval
    ensures Woken(c, interval, now) ==
      if c.next <= now then Clock(c.next + (late + 1) * interval, c.ticks + 1, c.dropped + late) else c
  {
    if c.next <= now {
      QuotientIs(now - c.next, interval, late);
    }
  }

  lemma {:induction false} TheGridIsKept(start: Instant, interval: nat, wakes: seq<Instant>)
    requires interval > 0
    ensures var c := Run(start, interval, wakes);
      && c.next == Boundary(start, interval, c.ticks + c.dropped + 1)
      && (wakes != [] ==> wakes[|wakes| - 1] < c.next)
  {
    if wakes != [] {
      TheGridIsKept(start, interval, wakes[..|wakes| - 1]);
      WakingKeepsTheGrid(Run(start, interval, wakes[..|wakes| - 1]), start, interval, wakes[|wakes| - 1]);
    }
  }

  /** Somebody looked at the clock at or after the k-th boundary. */
  ghost predicate Passed(start: Instant, interval: nat, wakes: seq<Instant>, k: nat) {
    exists i :: 0 <= i < |wakes| && Boundary(start, interval, k) <= wakes[i]
  }

  /** One wake-up accounts for exactly the boundaries up to it, and for those already accounted for. */
  lemma OneWakeCounts(c: Clock, start: Instant, interval: nat, now: Instant, k: nat)
    requires interval > 0 && c.next == Boundary(start, interval, c.ticks + c.dropped + 1)
    ensures var d := Woken(c, interval, now);
      k <= d.ticks + d.dropped <==> k <= c.ticks + c.dropped || Boundary(start, interval, k) <= now
  {
    var d := Woken(c, interval, now);
    WakingKeepsTheGrid(c, start, interval, now);
    BoundariesAreOrdered(start, interval, k, c.ticks + c.dropped);
    BoundariesAreOrdered(start, interval, k, d.ticks + d.dropped);
    if c.next <= now {
      LastBoundaryPassed(c, start, interval, now);
    }
  }

  /** Every boundary that passed was either redrawn or counted as dropped, and nothing else was: whatever
      the wake-ups, boundaries 1 to ticks + dropped are exactly those somebody woke at or after. */
  lemma {:induction false} NoFrameGoesUncounted(start: Instant, interval: nat, wakes: seq<Instant>, k: nat)
    requires interval > 0 && k > 0
    ensures var c := Run(start, interval, wakes);
      k <= c.ticks + c.dropped <==> Passed(start, interval, wakes, k)
  {
    if wakes != [] {
      var n := |wakes| - 1;
      var front, now := wakes[..n], wakes[n];
      NoFrameGoesUncounted(start, interval, front, k);
      TheGridIsKept(start, interval, front);
      OneWakeCounts(Run(start, interval, front), start, interval, now, k);
      if Passed(start, interval, front, k) {
        var i :| 0 <= i < n && Boundary(start, interval, k) <= front[i];
        assert wakes[i] == front[i];
      }
    }
  }

  lemma BoundariesAreOrdered(start: Instant, interval: nat, k: nat, m: nat)
    requires interval > 0
    ensures k <= m ==> Boundary(start, interval, k) <= Boundary(start, interval, m)
    ensures k > m ==> Boundary(start, interval, k) >= Boundary(start, interval, m + 1)
  {
    if k <= m {
      assert k * interval <= m * interval;
    } else {
      assert k * interval >= (m + 1) * interval;
    }
  }

  /** The last boundary a wake-up accounts for is not in the future. */
  lemma LastBoundaryPassed(c: Clock, start: Instant, interval: nat, now: Instant)
    requires interval > 0 && c.next <= now && c.next == Boundary(start, interval, c.ticks + c.dropped + 1)
    ensures var d := Woken(c, interval, now); Boundary(start, interval, d.ticks + d.dropped) <= now
  {
    var missed := (now - c.next) / interval;
    assert missed * interval <= now - c.next;
    assert (c.ticks + c.dropped + 1) * interval + missed * interval == (c.ticks + c.dropped + 1 + missed) * interval;
  }

  // ---------------------------------------------------------------- sleeping

  /** How long the thread sleeps: until the redraw or the animation's next frame, whichever comes first. */
  function Nap(now: Instant, next: Instant, animation: Option<Instant>): nat {
    var deadline := if animation.Some? then Min(animation.value, next) else next;
    Clamp(SaturatingSince(deadline, now), TICK_FLOOR, TICK_POLL)
  }

  /** A sleep ends at whatever is due first, the redraw or the animation's next frame, unless that is nearer than the
      floor or further than the poll. */
  lemma TheSleepEndsAtWhatIsDueFirst(now: Instant, next: Instant, animation: Option<Instant>)
    ensures var wake := now + Nap(now, next, animation);
      && now + TICK_FLOOR <= wake <= now + TICK_POLL
      && (wake <= next || wake == now + TICK_FLOOR)
      && (animation.Some? ==> wake <= animation.value || wake == now + TICK_FLOOR)
      && (wake < now + TICK_POLL ==>
            wake == now + TICK_FLOOR || wake == next || (animation.Some? && wake == animation.value))
  {
  }

  /** The wake-ups of a thread that sleeps exactly as long as it asks; `due` is what the animation answers. */
  function Naps(start: Instant, interval: nat, due: seq<Option<Instant>>): (r: seq<Instant>)
    requires interval > 0
    ensures |r| == |due| + 1
  {
    if due == [] then [start + Nap(start, start + interval, None)]
    else
      var before := Naps(start, interval, due[..|due| - 1]);
      var now := before[|before| - 1];
      before + [now + Nap(now, Run(start, interval, before).next, due[|due| - 1])]
  }

  /** Sleeping on time drops nothing, whatever the animation asks for: each redraw comes less than
      TICK_FLOOR after its boundary. */
  lemma {:induction false} SleepingOnTimeDropsNothing(start: Instant, interval: nat, due: seq<Option<Instant>>)
    requires interval >= TICK_FLOOR
    ensures var wakes := Naps(start, interval, due);
      && Run(start, interval, wakes).dropped == 0
      && wakes[|wakes| - 1] < Run(start, interval, wakes[..|wakes| - 1]).next + TICK_FLOOR
  {
    var wakes := Naps(start, interval, due);
    var front := wakes[..|wakes| - 1];
    if due == [] {
      assert front == [];
    } else {
      assert front == Naps(start, interval, due[..|due| - 1]);
      SleepingOnTimeDropsNothing(start, interval, due[..|due| - 1]);
      TheGridIsKept(start, interval, front);
    }
    var b, now := Run(start, interval, front), wakes[|wakes| - 1];
    if b.next <= now {
      NothingMissed(now - b.next, interval);
    }
  }

  lemma NothingMissed(late: nat, interval: nat)
    requires late < interval
    ensures late / interval == 0
  {
  }

  // ---------------------------------------------------------------- the thread's own loop

  class DisplayTicker {
    var next: Instant
    var ticks: nat
    var dropped: nat
    const interval: nat

    function State(): Clock
      reads this
    {
      Clock(next, ticks, dropped)
    }

    constructor (start: Instant, interval: nat)
      ensures this.interval == interval && State() == Started(start, interval)
    {
      this.interval := interval;
      next, ticks, dropped := start + interval, 0, 0;
    }

    /** One pass of the loop: give up the frames that are a whole interval late, then redraw once. */
    method Wake(now: Instant)
      requires interval > 0
      modifies this
      ensures State() == Woken(old(State()), interval, now)
    {
      if now >= next {
        ghost var first := next;
        var missed := 0;
        while next + interval <= now
          invariant next == first + missed * interval && first + missed * interval <= now
          invariant ticks == old(ticks) && dropped == old(dropped)
          decreases now - next
        {
          assert (missed + 1) * interval == missed * interval + interval;
          next := next + interval;
          missed := missed + 1;
        }
        QuotientIs(now - first, interval, missed);
        assert (missed + 1) * interval == missed * interval + interval;
        next := next + interval;
        dropped := dropped + missed;
        ticks := ticks + 1;
      }
    }
  }

  lemma QuotientIs(late: nat, interval: nat, missed: nat)
    requires interval > 0 && missed * interval <= late < missed * interval + interval
    ensures late / interval == missed
  {
    var q := late / interval;
    assert q * interval <= late < q * interval + interval;
    NotBelow(q, missed, interval);
    NotBelow(missed, q, interval);
  }

  lemma NotBelow(a: int, b: int, interval: nat)
    requires a * interval < b * interval + interval
    ensures a <= b
  {
    Distributes(a, b, interval);
    if a > b {
      ProductIsNatural(a - b - 1, interval);
    }
  }

  lemma Distributes(a: int, b: int, n: nat)
    ensures (a - b - 1) * n == a * n - b * n - n
  {
  }

  lemma ProductIsNatural(a: nat, n: nat)
    ensures 0 <= a * n
  {
  }
}
