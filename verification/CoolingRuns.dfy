/**
 The cooling path over time: the check of committed curves against the firmware's own answer,
 what every write of a transaction leaves running, and what holds after any run of requests,
 reconnections and checks. Models crates/daemon/src/cooling.rs.
 */
module CoolingRuns {
  import opened Basics
  import opened Profiles
  import opened Control
  import opened Cooling

  // ---------------------------------------------------------------- no curve is ever torn

  /** The curve a program leaves on a channel: its own, or the one already there. */
  function CurveAfter(b: Board, program: Program, c: Channel): TemperatureCurve {
    if program.Curve? then TargetFor(program, c).curve else b.Cell(c).running
  }

  ghost predicate Untorn(b: Board, program: Program, e: Entry) {
    Whole(e, b.Cell(e.channel).running, CurveAfter(b, program, e.channel))
  }

  ghost predicate LogUntorn(b: Board, program: Program, from: seq<Entry>, to: seq<Entry>) {
    from <= to && forall k :: |from| <= k < |to| ==> Untorn(b, program, to[k])
  }

  /** Both channels run a curve this transaction knows. */
  ghost predicate RunsOldOrNew(b: Board, program: Program, at: Board) {
    forall c: Channel :: at.Cell(c).running in {b.Cell(c).running, CurveAfter(b, program, c)}
  }

  lemma WritingOneIsUntorn(
      b: Board, at: Progress, m: Machine, now: Instant, wall: nat, program: Program,
      c: Channel, settled: Option<Readback>)
    requires !program.Onboard?
    requires m.pump.modeReadable && m.fan.modeReadable
    requires RunsOldOrNew(b, program, at.board)
    ensures var w := WriteOne(at, m, now, wall, c, TargetFor(program, c), settled);
      RunsOldOrNew(b, program, w.at.board) && LogUntorn(b, program, at.board.log, w.at.board.log)
  {
    var t := TargetFor(program, c);
    TargetIsAtomic(at.board.Port(c), m.Driver(c), t, b.Cell(c).running, CurveAfter(b, program, c));
    var one := WriteOne(at, m, now, wall, c, t, settled);
    assert one.at.board.Cell(c.Other()) == at.board.Cell(c.Other());
  }

  lemma {:induction false} WritingIsUntorn(
      b: Board, at: Progress, m: Machine, now: Instant, wall: nat, program: Program,
      settled: seq<Option<Readback>>, i: nat)
    requires !program.Onboard? && |settled| == 2 && i <= 2
    requires m.pump.modeReadable && m.fan.modeReadable
    requires RunsOldOrNew(b, program, at.board)
    ensures var w := WriteFrom(at, m, now, wall, program, settled, i);
      RunsOldOrNew(b, program, w.at.board) && LogUntorn(b, program, at.board.log, w.at.board.log)
    decreases 2 - i
  {
    if i < 2 {
      var c := ORDER[i];
      WritingOneIsUntorn(b, at, m, now, wall, program, c, settled[i]);
      var one := WriteOne(at, m, now, wall, c, TargetFor(program, c), settled[i]);
      if one.Finished? {
        WritingIsUntorn(b, one.at, m, now, wall, program, settled, i + 1);
      }
    }
  }

  lemma {:induction false} RollbackIsUntorn(
      b: Board, at: RolledBack, m: Machine, wall: nat, program: Program, snapshots: seq<Snapshot>, i: nat)
    requires i <= |snapshots|
    requires m.pump.modeReadable && m.fan.modeReadable
    requires forall k :: 0 <= k < |snapshots| && snapshots[k].mode == Some(PwmMode.Curve) ==>
      snapshots[k].curve == Some(b.Cell(snapshots[k].channel).running)
    requires RunsOldOrNew(b, program, at.board)
    ensures var r := RestoreFrom(at, m, wall, snapshots, i);
      LogUntorn(b, program, at.board.log, r.board.log)
    decreases |snapshots| - i
  {
    if i < |snapshots| {
      var s := snapshots[i];
      var c := s.channel;
      RestoreIsAtomic(at.board.Port(c), m.Driver(c), s, b.Cell(c).running, CurveAfter(b, program, c));
      var r := Restore(at.board.Port(c), m.Driver(c), s);
      var next := RolledBack(Rerecord(at.executor, s, r.verified, wall), at.board.With(c, r.port),
                             at.restored && r.verified.Proven?);
      assert next.board.Cell(c.Other()) == at.board.Cell(c.Other());
      RollbackIsUntorn(b, next, m, wall, program, snapshots, i + 1);
    }
  }

  lemma TransactIsUntorn(ex: Executor, b: Board, m: Machine, now: Instant, wall: nat, program: Program)
    requires Sound(ex, b) && !program.Onboard?
    requires m.pump.modeReadable && m.fan.modeReadable
    requires forall c: Channel :: b.Cell(c).mode.Curve? ==> ex.Curve(c).Some?
    ensures LogUntorn(b, program, b.log, Transact(ex, b, m, now, wall, program).board.log)
  {
    var start, settled := Progress(ex, b, 0, []), Settled(ex, b, m, program);
    WritingIsUntorn(b, start, m, now, wall, program, settled, 0);
    var w := WriteFrom(start, m, now, wall, program, settled, 0);
    if w.Broke? {
      RollbackIsUntorn(b, RolledBack(w.at.executor, w.at.board, true), m, wall, program, Snapshots(ex, b, m), 0);
    }
  }

  /** Through a whole transaction and its rollback, at every write and however it fails, each
      channel runs the curve it ran before or the one it was sent, never a mixture; provided its
      mode reads and a channel already on a curve is one this process put there. */
  lemma ApplyNeverTearsACurve(
      ex: Executor, b: Board, m: Machine, bound: bool, now: Instant, wall: nat, program: Program)
    requires Sound(ex, b)
    requires m.pump.modeReadable && m.fan.modeReadable
    requires forall c: Channel :: b.Cell(c).mode.Curve? ==> ex.Curve(c).Some?
    ensures LogUntorn(b, program, b.log, Apply(ex, b, m, bound, now, wall, program).board.log)
  {
    if !program.Onboard? && (ex.control || bound) {
      TransactIsUntorn(ex.(control := true), b, m, now, wall, program);
    }
  }

  // ---------------------------------------------------------------- the pump never starves

  ghost predicate LogFloored(from: seq<Entry>, to: seq<Entry>, exempt: Option<byte>) {
    from <= to && forall k :: |from| <= k < |to| && to[k].channel.Pump? ==> Floored(to[k], exempt)
  }

  /** Every pump curve on record is one that passed validation. */
  ghost predicate RecordFloored(ex: Executor) {
    ex.Curve(Pump).Some? ==> AtLeast(ex.Curve(Pump).value, MIN_PUMP_DUTY)
  }

  lemma {:induction false} WritingIsFloored(
      at: Progress, m: Machine, now: Instant, wall: nat, program: Program,
      settled: seq<Option<Readback>>, i: nat)
    requires !program.Onboard? && |settled| == 2 && i <= 2
    requires ProgramIsSafe(program) && RecordFloored(at.executor)
    ensures var w := WriteFrom(at, m, now, wall, program, settled, i);
      LogFloored(at.board.log, w.at.board.log, None) && RecordFloored(w.at.executor)
    decreases 2 - i
  {
    if i < 2 {
      var c, t := ORDER[i], TargetFor(program, ORDER[i]);
      TargetWritesAreFloored(at.board.Port(c), m.Driver(c), t);
      var one := WriteOne(at, m, now, wall, c, t, settled[i]);
      if one.Finished? {
        WritingIsFloored(one.at, m, now, wall, program, settled, i + 1);
      }
    }
  }

  lemma {:induction false} RollbackIsFloored(
      at: RolledBack, m: Machine, wall: nat, snapshots: seq<Snapshot>, i: nat, exempt: Option<byte>)
    requires i <= |snapshots|
    requires forall k :: 0 <= k < |snapshots| && snapshots[k].channel.Pump? ==>
      snapshots[k].duty == exempt
      && (snapshots[k].curve.Some? ==> AtLeast(snapshots[k].curve.value, MIN_PUMP_DUTY))
    requires RecordFloored(at.executor)
    ensures var r := RestoreFrom(at, m, wall, snapshots, i);
      LogFloored(at.board.log, r.board.log, exempt) && RecordFloored(r.executor)
    decreases |snapshots| - i
  {
    if i < |snapshots| {
      var s := snapshots[i];
      RestoreIsFloored(at.board.Port(s.channel), m.Driver(s.channel), s);
      var r := Restore(at.board.Port(s.channel), m.Driver(s.channel), s);
      RollbackIsFloored(
        RolledBack(Rerecord(at.executor, s, r.verified, wall), at.board.With(s.channel, r.port),
                   at.restored && r.verified.Proven?), m, wall, snapshots, i + 1, exempt);
    }
  }

  lemma TransactIsFloored(ex: Executor, b: Board, m: Machine, now: Instant, wall: nat, program: Program)
    requires !program.Onboard? && ProgramIsSafe(program) && RecordFloored(ex)
    ensures var a := Transact(ex, b, m, now, wall, program);
      && RecordFloored(a.executor)
      && LogFloored(b.log, a.board.log,
                    if a.outcome.hardware.Confirmed? then None else ReadDuty(b.Cell(Pump), m.pump))
  {
    var start, settled := Progress(ex, b, 0, []), Settled(ex, b, m, program);
    WritingIsFloored(start, m, now, wall, program, settled, 0);
    var w := WriteFrom(start, m, now, wall, program, settled, 0);
    ConcludingIsFloored(ex, b, m, w, wall);
  }

  lemma ConcludingIsFloored(ex: Executor, b: Board, m: Machine, w: Written, wall: nat)
    requires RecordFloored(ex) && RecordFloored(w.at.executor)
    requires LogFloored(b.log, w.at.board.log, None)
    ensures var a := Conclude(w, m, wall, Snapshots(ex, b, m));
      && RecordFloored(a.executor)
      && LogFloored(b.log, a.board.log,
                    if a.outcome.hardware.Confirmed? then None else ReadDuty(b.Cell(Pump), m.pump))
  {
    if w.Broke? {
      RollbackIsFloored(RolledBack(w.at.executor, w.at.board, true), m, wall, Snapshots(ex, b, m), 0,
                        ReadDuty(b.Cell(Pump), m.pump));
    }
  }

  /** A validated program never sends the pump a value below its floor; only a rollback may, and
      then only the duty the device itself reported when the same transaction began. */
  lemma PumpFloorHolds(
      ex: Executor, b: Board, m: Machine, bound: bool, now: Instant, wall: nat, program: Program)
    requires ValidateProgram(program).Accepted? && RecordFloored(ex)
    ensures var a := Apply(ex, b, m, bound, now, wall, program);
      && RecordFloored(a.executor)
      && LogFloored(b.log, a.board.log,
                    if a.outcome.hardware.Confirmed? then None else ReadDuty(b.Cell(Pump), m.pump))
  {
    ProgramValidationIsExact(program);
    if !program.Onboard? && (ex.control || bound) {
      TransactIsFloored(ex.(control := true), b, m, now, wall, program);
    }
  }

  /** The exemption is not slack: a pump that reads as holding less than its floor in direct mode is sent
      exactly that again when the second write of a new target fails. */
  lemma ARollbackMayGoBelowTheFloor(
      ex: Executor, b: Board, m: Machine, now: Instant, wall: nat, pump: byte, fan: byte)
    requires ex == Executor(true, map[], None)
    requires b.pump.mode.Fixed? && b.pump.duty < MIN_PUMP_DUTY && b.faults == [Lands, FailsLost]
    requires m.pump.modeReadable && m.pump.dutyReadable && m.pump.rounding[pump] == pump && MIN_PUMP_DUTY <= pump
    ensures var a := Apply(ex, b, m, true, now, wall, Program.Fixed(pump, fan));
      && |b.log| + 2 < |a.board.log|
      && a.board.log[|b.log| + 2].channel.Pump?
      && a.board.log[|b.log| + 2].write == SetDuty(b.pump.duty)
  {
    var program := Program.Fixed(pump, fan);
    var start, settled := Progress(ex, b, 0, []), Settled(ex, b, m, program);
    var first := Attempt(b.Port(Pump), m.pump, SetDuty(pump));
    var second := Attempt(first.port, m.pump, SetMode(PwmMode.Fixed));
    assert settled[0].None? && ORDER[0] == Pump;
    assert first.ok && first.port.faults == [FailsLost] && !second.ok && second.port.cell.duty == pump;
    var one := WriteOne(start, m, now, wall, Pump, FixedAt(pump), None);
    assert one.Broke? && one.at.board == b.With(Pump, second.port);
    assert WriteFrom(start, m, now, wall, program, settled, 0) == one;
    var snapshots := Snapshots(ex, b, m);
    var from := RolledBack(one.at.executor, one.at.board, true);
    var r := Restore(second.port, m.pump, snapshots[0]);
    assert snapshots[0] == Snapshot(Pump, Some(PwmMode.Fixed), Some(b.pump.duty), None);
    var again := Attempt(second.port, m.pump, SetDuty(b.pump.duty));
    assert r.port == again.port && again.port.log[|b.log| + 2].write == SetDuty(b.pump.duty);
    var next := RolledBack(Rerecord(from.executor, snapshots[0], r.verified, wall), from.board.With(Pump, r.port),
                           r.verified.Proven?);
    assert RestoreFrom(from, m, wall, snapshots, 0) == RestoreFrom(next, m, wall, snapshots, 1);
    RollbackExtendsTheLog(next, m, wall, snapshots, 1);
  }

  lemma {:induction false} RollbackExtendsTheLog(
      at: RolledBack, m: Machine, wall: nat, snapshots: seq<Snapshot>, i: nat)
    requires i <= |snapshots|
    ensures at.board.log <= RestoreFrom(at, m, wall, snapshots, i).board.log
    decreases |snapshots| - i
  {
    if i < |snapshots| {
      var s := snapshots[i];
      RestoreIsSound(at.board.Port(s.channel), m.Driver(s.channel), s);
      var r := Restore(at.board.Port(s.channel), m.Driver(s.channel), s);
      RollbackExtendsTheLog(
        RolledBack(Rerecord(at.executor, s, r.verified, wall), at.board.With(s.channel, r.port),
                   at.restored && r.verified.Proven?), m, wall, snapshots, i + 1);
    }
  }

  // ---------------------------------------------------------------- checking a committed curve

  datatype Sample = Sample(mode: Option<PwmMode>, duty: Option<byte>)

  /** One telemetry reading of the device; the liquid temperature is in millidegrees. */
  datatype Kraken = Kraken(liquid: Option<int>, pump: Sample, fan: Sample) {
    function Sample(c: Channel): Sample {
      match c
      case Pump => pump
      case Fan => fan
    }
  }

  datatype CurveDivergence = CurveDivergence(channel: Channel, liquid: int, expected: byte, reported: byte)

  function Least(window: seq<byte>): byte
    requires window != []
  {
    if |window| == 1 then window[0] else Min(window[0], Least(window[1..]))
  }

  function Greatest(window: seq<byte>): byte
    requires window != []
  {
    if |window| == 1 then window[0] else Max(window[0], Greatest(window[1..]))
  }

  /** The point the temperature names, with its neighbours. */
  function Window(curve: TemperatureCurve, liquid: int): seq<byte> {
    var center := PointIndexFor(liquid);
    curve[Max(center - 1, 0)..Min(center + 1, CURVE_POINT_COUNT - 1) + 1]
  }

  predicate AcceptsDuty(curve: TemperatureCurve, liquid: int, reported: byte) {
    var window := Window(curve, liquid);
    && Max(Least(window) - CURVE_DUTY_TOLERANCE, 0) <= reported
    && reported <= Min(Greatest(window) + CURVE_DUTY_TOLERANCE, MAX_DUTY)
  }

  /** The divergence one committed channel earns, if any. */
  function Flag(ex: Executor, k: Kraken, wall: nat, c: Channel): Option<CurveDivergence> {
    if k.liquid.None? || ex.Curve(c).None? then None
    else if wall < ex.committed[c].atUnixMs + CURVE_SETTLE_MS then None
    else if k.Sample(c).mode != Some(PwmMode.Curve) || k.Sample(c).duty.None? then None
    else
      var curve, reported := ex.Curve(c).value, k.Sample(c).duty.value;
      if AcceptsDuty(curve, k.liquid.value, reported) then None
      else Some(CurveDivergence(c, k.liquid.value, DutyAt(curve, k.liquid.value), reported))
  }

  function Flags(ex: Executor, k: Kraken, wall: nat): seq<CurveDivergence> {
    (if Flag(ex, k, wall, Pump).Some? then [Flag(ex, k, wall, Pump).value] else [])
    + (if Flag(ex, k, wall, Fan).Some? then [Flag(ex, k, wall, Fan).value] else [])
  }

  function VerifyCurves(ex: Executor, k: Kraken, wall: nat): Executor {
    var pumped := if Flag(ex, k, wall, Pump).Some? then ex.Uncommitting(Pump) else ex;
    if Flag(ex, k, wall, Fan).Some? then pumped.Uncommitting(Fan) else pumped
  }

  lemma WindowBounds(curve: TemperatureCurve, liquid: int)
    requires NonDecreasing(curve)
    ensures var center := PointIndexFor(liquid);
      && Least(Window(curve, liquid)) == curve[Max(center - 1, 0)]
      && Greatest(Window(curve, liquid)) == curve[Min(center + 1, CURVE_POINT_COUNT - 1)]
  {
    var window := Window(curve, liquid);
    var center := PointIndexFor(liquid);
    if |window| == 3 {
      assert window == [curve[center - 1], curve[center], curve[center + 1]];
      TripleBounds(window[0], window[1], window[2]);
    } else {
      assert window[1..] == [window[1]];
    }
  }

  lemma TripleBounds(a: byte, b: byte, c: byte)
    requires a <= b <= c
    ensures Least([a, b, c]) == a && Greatest([a, b, c]) == c
  {
    assert [a, b, c][1..] == [b, c] && [b, c][1..] == [c];
    assert Least([b, c]) == b && Greatest([b, c]) == c;
  }

  /** A device running the committed curve somewhere between the two neighbouring points, and
      reporting it through the driver's percentages, is never flagged. */
  lemma RunningTheCurveIsNeverFlagged(
      ex: Executor, k: Kraken, wall: nat, c: Channel, curve: TemperatureCurve, duty: byte)
    requires ex.Curve(c) == Some(curve) && NonDecreasing(curve)
    requires k.liquid.Some? ==>
      var center := PointIndexFor(k.liquid.value);
      curve[Max(center - 1, 0)] <= duty <= curve[Min(center + 1, CURVE_POINT_COUNT - 1)]
    requires k.Sample(c).duty == Some(DriverRounding(duty))
    ensures Flag(ex, k, wall, c).None?
  {
    if k.liquid.Some? {
      WindowBounds(curve, k.liquid.value);
      RoundingIsClose(duty, duty);
    }
  }

  /** Once settled, in curve mode and readable, a channel is flagged exactly when the reported duty
      is more than the tolerance outside the two neighbouring points. */
  lemma FlaggingIsExact(ex: Executor, k: Kraken, wall: nat, c: Channel, curve: TemperatureCurve)
    requires ex.Curve(c) == Some(curve) && NonDecreasing(curve)
    requires k.liquid.Some? && k.Sample(c).mode == Some(PwmMode.Curve) && k.Sample(c).duty.Some?
    requires ex.committed[c].atUnixMs + CURVE_SETTLE_MS <= wall
    ensures var center := PointIndexFor(k.liquid.value);
      var reported := k.Sample(c).duty.value;
      Flag(ex, k, wall, c).Some? <==>
        || reported + CURVE_DUTY_TOLERANCE < curve[Max(center - 1, 0)]
        || curve[Min(center + 1, CURVE_POINT_COUNT - 1)] + CURVE_DUTY_TOLERANCE < reported
  {
    WindowBounds(curve, k.liquid.value);
  }

  /** One point the check lets a channel run: the one the temperature names or a neighbour. */
  predicate Near(liquid: int, index: nat) {
    index < CURVE_POINT_COUNT && PointIndexFor(liquid) - 1 <= index <= PointIndexFor(liquid) + 1
  }

  /** The reported duty is beyond the tolerance on one side of every near point. */
  ghost predicate OutOfReach(curve: TemperatureCurve, liquid: int, reported: byte) {
    || (forall k: PointIndex :: Near(liquid, k) ==> reported + CURVE_DUTY_TOLERANCE < curve[k])
    || (forall k: PointIndex :: Near(liquid, k) ==> curve[k] + CURVE_DUTY_TOLERANCE < reported)
  }

  lemma {:induction false} LeastAndGreatest(window: seq<byte>, k: nat)
    requires k < |window|
    ensures Least(window) <= window[k] <= Greatest(window) && Least(window) in window && Greatest(window) in window
  {
    if |window| > 1 {
      LeastAndGreatest(window[1..], if k == 0 then 0 else k - 1);
    }
  }

  /** The window holds every near point. */
  lemma NearIsInTheWindow(curve: TemperatureCurve, liquid: int, k: PointIndex)
    requires Near(liquid, k)
    ensures Least(Window(curve, liquid)) <= curve[k] <= Greatest(Window(curve, liquid))
  {
    var center := PointIndexFor(liquid);
    var first := if center == 0 then 0 else center - 1;
    assert Window(curve, liquid)[k - first] == curve[k];
    LeastAndGreatest(Window(curve, liquid), k - first);
  }

  /** And nothing else. */
  lemma TheWindowIsNear(curve: TemperatureCurve, liquid: int, i: nat) returns (k: PointIndex)
    requires i < |Window(curve, liquid)|
    ensures Near(liquid, k) && curve[k] == Window(curve, liquid)[i]
  {
    var center := PointIndexFor(liquid);
    k := (if center == 0 then 0 else center - 1) + i;
  }

  lemma AcceptedExactlyWhen(curve: TemperatureCurve, liquid: int, reported: byte)
    ensures AcceptsDuty(curve, liquid, reported) <==> !OutOfReach(curve, liquid, reported)
  {
    var window := Window(curve, liquid);
    LeastAndGreatest(window, 0);
    var i: nat :| i < |window| && window[i] == Least(window);
    var j: nat :| j < |window| && window[j] == Greatest(window);
    var low := TheWindowIsNear(curve, liquid, i);
    var high := TheWindowIsNear(curve, liquid, j);
    forall k: PointIndex | Near(liquid, k) ensures Least(window) <= curve[k] <= Greatest(window) {
      NearIsInTheWindow(curve, liquid, k);
    }
  }

  /** A channel is flagged exactly when it is committed to a curve that has had its time to settle, the device
      reads as running one, and reports a duty out of reach of it; the flag says which channel, at which
      temperature, what was expected there and what was reported. */
  lemma FlaggedExactlyWhen(ex: Executor, k: Kraken, wall: nat, c: Channel)
    ensures Flag(ex, k, wall, c).Some? <==>
      && c in ex.committed && ex.committed[c].target.Along?
      && wall - ex.committed[c].atUnixMs >= CURVE_SETTLE_MS
      && k.liquid.Some? && k.Sample(c).mode == Some(PwmMode.Curve) && k.Sample(c).duty.Some?
      && OutOfReach(ex.committed[c].target.curve, k.liquid.value, k.Sample(c).duty.value)
    ensures Flag(ex, k, wall, c).Some? ==>
      && k.liquid.Some? && k.Sample(c).duty.Some? && c in ex.committed && ex.committed[c].target.Along?
      && Flag(ex, k, wall, c).value
           == CurveDivergence(c, k.liquid.value, ex.committed[c].target.curve[PointIndexFor(k.liquid.value)],
                              k.Sample(c).duty.value)
  {
    if ex.Curve(c).Some? && k.liquid.Some? && k.Sample(c).duty.Some? {
      AcceptedExactlyWhen(ex.Curve(c).value, k.liquid.value, k.Sample(c).duty.value);
    }
  }

  /** The divergences of a check: one for each flagged channel and no other, the pump's before the fan's. */
  lemma EveryFlagIsReported(ex: Executor, k: Kraken, wall: nat)
    ensures var flags := Flags(ex, k, wall);
      && (forall c: Channel :: Flag(ex, k, wall, c).Some? ==> Flag(ex, k, wall, c).value in flags)
      && (forall i :: 0 <= i < |flags| ==> Flag(ex, k, wall, flags[i].channel) == Some(flags[i]))
      && (forall i, j :: 0 <= i < j < |flags| ==> flags[i].channel.Pump? && flags[j].channel.Fan?)
  {
  }

  /** A flagged channel leaves the record and nothing else does, so the next request for the same
      program cannot be answered from it: it is refused for cadence or it writes. */
  lemma FlaggedIsWrittenAgain(
      ex: Executor, k: Kraken, wall: nat, c: Channel,
      b: Board, m: Machine, now: Instant, wall': nat, program: Program)
    requires Flag(ex, k, wall, c).Some? && ex.control && !program.Onboard?
    ensures var checked := VerifyCurves(ex, k, wall);
      var a := Apply(checked, b, m, true, now, wall', program);
      && c !in checked.committed
      && (forall o: Channel :: Flag(ex, k, wall, o).None? ==> checked.Target(o) == ex.Target(o))
      && (TooSoon(ex, now) ==> a.board == b && a.outcome.hardware.NotApplied?)
      && (!TooSoon(ex, now) ==> b.log < a.board.log)
      && !a.outcome.deduplicated
  {
    var checked := VerifyCurves(ex, k, wall);
    assert AlreadyApplied(checked, b, m, c, TargetFor(program, c)).None?;
    assert !AllSettled(Settled(checked, b, m, program));
    assert checked.(control := true) == checked;
    if !TooSoon(checked, now) {
      TransactIsStamped(checked, b, m, now, wall', program);
      WritesAreCounted(checked, b, m, now, wall', program);
    }
  }

  lemma {:induction false} ABrokenLoopCountsLess(
      at: Progress, m: Machine, now: Instant, wall: nat, program: Program,
      settled: seq<Option<Readback>>, i: nat)
    requires !program.Onboard? && |settled| == 2 && i <= 2
    ensures var w := WriteFrom(at, m, now, wall, program, settled, i);
      w.Broke? ==> w.at.writes - at.writes < |w.at.board.log| - |at.board.log|
    decreases 2 - i
  {
    if i < 2 {
      var c, t := ORDER[i], TargetFor(program, ORDER[i]);
      CleanReadbackMeansOnTarget(at.board.Port(c), m.Driver(c), t);
      var one := WriteOne(at, m, now, wall, c, t, settled[i]);
      if one.Finished? {
        ABrokenLoopCountsLess(one.at, m, now, wall, program, settled, i + 1);
      }
    }
  }

  /** The operator is told how many attributes were written exactly when no forward write failed; an
      aborted call always reports fewer than it attempted. */
  lemma TheCountIsExactExactlyWhen(ex: Executor, b: Board, m: Machine, now: Instant, wall: nat, program: Program)
    requires !program.Onboard?
    ensures var a := Transact(ex, b, m, now, wall, program);
      var w := WriteFrom(Progress(ex, b, 0, []), m, now, wall, program, Settled(ex, b, m, program), 0);
      && b.log <= a.board.log
      && (a.outcome.writes == |a.board.log| - |b.log| <==> w.Finished?)
      && a.outcome.writes <= |a.board.log| - |b.log|
  {
    var start, settled := Progress(ex, b, 0, []), Settled(ex, b, m, program);
    WritingIsCounted(start, m, now, wall, program, settled, 0);
    ABrokenLoopCountsLess(start, m, now, wall, program, settled, 0);
    var w := WriteFrom(start, m, now, wall, program, settled, 0);
    if w.Broke? {
      RollbackExtendsTheLog(RolledBack(w.at.executor, w.at.board, true), m, wall, Snapshots(ex, b, m), 0);
    }
  }

  /** A concrete aborted call: the duty is written, the mode after it fails, and the answer counts no
      write at all. */
  lemma AnAbortedCallReportsNoWrite(
      ex: Executor, b: Board, m: Machine, now: Instant, wall: nat, pump: byte, fan: byte)
    requires ex == Executor(true, map[], None) && b.faults == [Lands, FailsLost]
    ensures var a := Apply(ex, b, m, true, now, wall, Program.Fixed(pump, fan));
      a.outcome.writes == 0 && |b.log| + 2 <= |a.board.log| && a.board.log[|b.log|].write == SetDuty(pump)
  {
    var program := Program.Fixed(pump, fan);
    var start, settled := Progress(ex, b, 0, []), Settled(ex, b, m, program);
    var first := Attempt(b.Port(Pump), m.pump, SetDuty(pump));
    var second := Attempt(first.port, m.pump, SetMode(PwmMode.Fixed));
    assert settled[0].None? && ORDER[0] == Pump && first.ok && !second.ok;
    var one := WriteOne(start, m, now, wall, Pump, FixedAt(pump), None);
    assert one.Broke? && one.at.board == b.With(Pump, second.port);
    assert second.port.log[|b.log|].write == SetDuty(pump) && |second.port.log| == |b.log| + 2;
    assert WriteFrom(start, m, now, wall, program, settled, 0) == one;
    RollbackExtendsTheLog(RolledBack(one.at.executor, one.at.board, true), m, wall, Snapshots(ex, b, m), 0);
  }

  // ---------------------------------------------------------------- runs

  /** What can happen to the executor: a request under any failing writes, the device going away
      and coming back in any state, a telemetry check. */
  datatype Event =
    | Request(now: Instant, wall: nat, program: Program, bound: bool, machine: Machine, faults: seq<Fault>)
    | Reconnect(pump: Cell, fan: Cell)
    | Check(kraken: Kraken, wall: nat)

  datatype System = System(executor: Executor, board: Board)

  function Forget(ex: Executor): Executor {
    ex.(committed := map[], control := false)
  }

  function Asked(s: System, e: Event): Applying
    requires e.Request?
  {
    Apply(s.executor, s.board.(faults := e.faults), e.machine, e.bound, e.now, e.wall, e.program)
  }

  function Step(s: System, e: Event): System {
    match e
    case Request(_, _, _, _, _, _) => System(Asked(s, e).executor, Asked(s, e).board)
    case Reconnect(pump, fan) => System(Forget(s.executor), s.board.(pump := pump, fan := fan))
    case Check(kraken, wall) => System(VerifyCurves(s.executor, kraken, wall), s.board)
  }

  function Run(s: System, events: seq<Event>): System {
    if events == [] then s else Step(Run(s, events[..|events| - 1]), events[|events| - 1])
  }

  /** A process that has just started has nothing on record. */
  ghost predicate Fresh(s: System) {
    s.executor.committed == map[] && s.executor.lastWrite == None
  }

  lemma StepKeepsRecordTrue(s: System, e: Event)
    requires Sound(s.executor, s.board)
    ensures Sound(Step(s, e).executor, Step(s, e).board)
  {
    if e.Request? {
      var b := s.board.(faults := e.faults);
      assert forall c: Channel :: b.Cell(c) == s.board.Cell(c);
      ApplyIsAllOrNothing(s.executor, b, e.machine, e.bound, e.now, e.wall, e.program);
    }
  }

  /** In every state any run can reach, whatever is on record is what the device is running. */
  lemma {:induction false} RecordIsAlwaysTrue(s: System, events: seq<Event>)
    requires Fresh(s)
    ensures Sound(Run(s, events).executor, Run(s, events).board)
  {
    if events != [] {
      RecordIsAlwaysTrue(s, events[..|events| - 1]);
      StepKeepsRecordTrue(Run(s, events[..|events| - 1]), events[|events| - 1]);
    }
  }

  /** Every request of every run keeps the contract of one transaction. */
  lemma EveryRequestIsAllOrNothing(s: System, events: seq<Event>, e: Event)
    requires Fresh(s) && e.Request?
    ensures var before := Run(s, events);
      Honest(before.board.(faults := e.faults), e.program, Asked(before, e))
  {
    RecordIsAlwaysTrue(s, events);
    var before := Run(s, events);
    var b := before.board.(faults := e.faults);
    assert forall c: Channel :: b.Cell(c) == before.board.Cell(c);
    ApplyIsAllOrNothing(before.executor, b, e.machine, e.bound, e.now, e.wall, e.program);
  }

  /** The moments at which a run reached the device. */
  function Touches(s: System, events: seq<Event>): seq<Instant> {
    if events == [] then [] else
    var before, e := Run(s, events[..|events| - 1]), events[|events| - 1];
    Touches(s, events[..|events| - 1])
    + if e.Request? && Asked(before, e).board.log != before.board.log then [e.now] else []
  }

  /** One request reaches the device, stamps and is spaced, or leaves the log and the stamp alone. */
  lemma AskingIsSpaced(s: System, e: Event)
    requires e.Request?
    ensures var stamp, a := s.executor.lastWrite, Asked(s, e);
      if a.board.log == s.board.log then a.executor.lastWrite == stamp
      else && a.executor.lastWrite == Some(e.now)
           && (stamp.Some? ==> e.now - stamp.value >= MIN_PROGRAM_INTERVAL)
  {
    TouchingIsSpaced(s.executor, s.board.(faults := e.faults), e.machine, e.bound, e.now, e.wall, e.program);
  }

  /** The stamp is the last moment the device was reached, whatever was forgotten since. */
  lemma {:induction false} StampIsLastTouch(s: System, events: seq<Event>)
    requires Fresh(s)
    ensures var t := Touches(s, events);
      Run(s, events).executor.lastWrite == if t == [] then None else Some(t[|t| - 1])
  {
    if events != [] {
      StampIsLastTouch(s, events[..|events| - 1]);
      var before, e := Run(s, events[..|events| - 1]), events[|events| - 1];
      if e.Request? {
        AskingIsSpaced(before, e);
      }
    }
  }

  /** Any two calls that reach the device are at least the floor apart, across rollbacks,
      disconnections and checks alike. */
  lemma {:induction false} TouchesAreSpaced(s: System, events: seq<Event>)
    requires Fresh(s)
    ensures var t := Touches(s, events);
      forall i, j :: 0 <= i < j < |t| ==> t[j] - t[i] >= MIN_PROGRAM_INTERVAL
  {
    if events != [] {
      TouchesAreSpaced(s, events[..|events| - 1]);
      StampIsLastTouch(s, events[..|events| - 1]);
      var before, e := Run(s, events[..|events| - 1]), events[|events| - 1];
      if e.Request? {
        AskingIsSpaced(before, e);
      }
    }
  }

  /** Every request of the run passed the daemon's validation first. */
  ghost predicate Admitted(events: seq<Event>) {
    forall i :: 0 <= i < |events| && events[i].Request? ==> ValidateProgram(events[i].program).Accepted?
  }

  lemma {:induction false} RecordStaysFloored(s: System, events: seq<Event>)
    requires Fresh(s) && Admitted(events)
    ensures RecordFloored(Run(s, events).executor)
  {
    if events != [] {
      RecordStaysFloored(s, events[..|events| - 1]);
      var before, e := Run(s, events[..|events| - 1]), events[|events| - 1];
      if e.Request? {
        PumpFloorHolds(before.executor, before.board.(faults := e.faults),
                       e.machine, e.bound, e.now, e.wall, e.program);
      }
    }
  }

  /** Over any run, whatever failed and whatever was restored: each request sends the pump nothing
      below its floor except the duty the device reported when that request began. */
  lemma PumpFloorHoldsInEveryRun(s: System, events: seq<Event>, e: Event)
    requires Fresh(s) && Admitted(events) && Admitted([e]) && e.Request?
    ensures var before := Run(s, events);
      LogFloored(before.board.log, Asked(before, e).board.log,
                 if Asked(before, e).outcome.hardware.Confirmed? then None
                 else ReadDuty(before.board.pump, e.machine.pump))
  {
    RecordStaysFloored(s, events);
    assert [e][0] == e;
    var before := Run(s, events);
    PumpFloorHolds(before.executor, before.board.(faults := e.faults),
                   e.machine, e.bound, e.now, e.wall, e.program);
  }

  /** After a reconnection nothing is answered from the record, whatever the device came back in: the next program
      is written as soon as the cadence allows, or there is no device to write it to. */
  lemma AReconnectionIsNeverDeduplicatedAgainst(s: System, pump: Cell, fan: Cell, e: Event)
    requires e.Request? && !e.program.Onboard?
    ensures var back := Step(s, Reconnect(pump, fan));
      var due := s.executor.lastWrite.None? || e.now - s.executor.lastWrite.value >= MIN_PROGRAM_INTERVAL;
      && back.board.pump == pump && back.board.fan == fan && back.board.log == s.board.log
      && !Asked(back, e).outcome.deduplicated
      && (back.board.log < Asked(back, e).board.log <==> e.bound && due)
      && (!e.bound ==> Asked(back, e).outcome.hardware.NotApplied?)
  {
    var back := Step(s, Reconnect(pump, fan));
    WritesExactlyWhen(back.executor, back.board.(faults := e.faults), e.machine, e.bound, e.now, e.wall, e.program);
  }
}
