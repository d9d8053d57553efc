/**
 When a curve write tears the curve the device is running. A channel in curve mode whose mode cannot be
 read is written point by point while it runs, and each point sends the array as it then is.
 Models `apply_curve` and `stage_curve` in crates/hardware-linux/src/control.rs on the input their
 promise of a whole curve leaves out.
 */
module Tearing {
  import opened Basics
  import opened Profiles
  import opened Control
  import opened Cooling
  import CoolingRuns

  /** The array after its first `k` points were rewritten. */
  function Mixed(curve: TemperatureCurve, points: TemperatureCurve, k: nat): TemperatureCurve
    requires k <= CURVE_POINT_COUNT
  {
    curve[..k] + points[k..]
  }

  /** One of the arrays a rewrite passes through, or the curve that ran before it. */
  ghost predicate Blend(
      ran: TemperatureCurve, running: TemperatureCurve, curve: TemperatureCurve, points: TemperatureCurve)
  {
    ran == running || exists k: nat :: 0 < k <= CURVE_POINT_COUNT && ran == Mixed(curve, points, k)
  }

  /** Every entry `q` has beyond `p` ran a blend, before and after. */
  ghost predicate AllBlends(
      p: Port, q: Port, running: TemperatureCurve, curve: TemperatureCurve, points: TemperatureCurve)
  {
    && p.log <= q.log
    && forall k :: |p.log| <= k < |q.log| ==>
         && Blend(q.log[k].before.running, running, curve, points)
         && Blend(q.log[k].after.running, running, curve, points)
  }

  /** Every entry `q` has beyond `p` ran the whole old curve or the whole new one. */
  ghost predicate NeverTorn(p: Port, q: Port, curve: TemperatureCurve) {
    && p.log <= q.log
    && forall k :: |p.log| <= k < |q.log| ==>
         && q.log[k].before.running in {p.cell.running, curve}
         && q.log[k].after.running in {p.cell.running, curve}
  }

  lemma OneMorePoint(curve: TemperatureCurve, points: TemperatureCurve, index: nat)
    requires index < CURVE_POINT_COUNT
    ensures Mixed(curve, points, index)[index := curve[index]] == Mixed(curve, points, index + 1)
  {
  }

  lemma WholeMix(curve: TemperatureCurve, points: TemperatureCurve)
    ensures Mixed(curve, points, CURVE_POINT_COUNT) == curve
    ensures Mixed(curve, points, 0) == points
  {
  }

  /** One point written in curve mode, whatever becomes of it. */
  lemma PointRunsABlend(
      p: Port, d: Driver, running: TemperatureCurve, curve: TemperatureCurve, points: TemperatureCurve, index: nat)
    requires index < CURVE_POINT_COUNT && p.cell.mode.Curve?
    requires p.cell.points == Mixed(curve, points, index) && Blend(p.cell.running, running, curve, points)
    ensures var t := Attempt(p, d, SetPoint(index, curve[index]));
      && AllBlends(p, t.port, running, curve, points)
      && Blend(t.port.cell.running, running, curve, points)
      && t.port.cell.mode.Curve?
      && (t.ok ==> t.port.cell.points == Mixed(curve, points, index + 1))
  {
    OneMorePoint(curve, points, index);
    var t := Attempt(p, d, SetPoint(index, curve[index]));
    assert t.port.cell.running in {p.cell.running, Mixed(curve, points, index + 1)};
  }

  lemma BlendsJoin(
      p: Port, q: Port, r: Port, running: TemperatureCurve, curve: TemperatureCurve, points: TemperatureCurve)
    requires AllBlends(p, q, running, curve, points) && AllBlends(q, r, running, curve, points)
    ensures AllBlends(p, r, running, curve, points)
  {
    forall k | |p.log| <= k < |r.log|
      ensures Blend(r.log[k].before.running, running, curve, points)
      ensures Blend(r.log[k].after.running, running, curve, points)
    {
      if k < |q.log| { assert r.log[k] == q.log[k]; }
    }
  }

  /** Wherever the point writes stop, nothing ran but blends. */
  lemma {:induction false} PointsRunBlends(
      p: Port, d: Driver, running: TemperatureCurve, curve: TemperatureCurve, points: TemperatureCurve, index: nat)
    requires index <= CURVE_POINT_COUNT && p.cell.mode.Curve?
    requires p.cell.points == Mixed(curve, points, index) && Blend(p.cell.running, running, curve, points)
    ensures var t := StagePoints(p, d, curve, index);
      && AllBlends(p, t.port, running, curve, points)
      && Blend(t.port.cell.running, running, curve, points)
      && (t.ok ==> t.port.cell.points == curve)
    decreases CURVE_POINT_COUNT - index
  {
    if index == CURVE_POINT_COUNT {
      WholeMix(curve, points);
    } else {
      PointRunsABlend(p, d, running, curve, points, index);
      var t := Attempt(p, d, SetPoint(index, curve[index]));
      if t.ok {
        PointsRunBlends(t.port, d, running, curve, points, index + 1);
        BlendsJoin(p, t.port, StagePoints(t.port, d, curve, index + 1).port, running, curve, points);
      }
    }
  }

  /** With no write failing, the k-th point write leaves the device running the array torn at k. */
  lemma {:induction false} EveryBlendIsRun(
      p: Port, d: Driver, curve: TemperatureCurve, points: TemperatureCurve, index: nat, k: nat)
    requires index < k <= CURVE_POINT_COUNT && p.cell.mode.Curve? && p.faults == []
    requires p.cell.points == Mixed(curve, points, index)
    ensures var t := StagePoints(p, d, curve, index);
      && p.log <= t.port.log
      && |t.port.log| == |p.log| + CURVE_POINT_COUNT - index
      && t.port.log[|p.log| + k - index - 1].after.running == Mixed(curve, points, k)
    decreases CURVE_POINT_COUNT - index
  {
    OneMorePoint(curve, points, index);
    var t := Attempt(p, d, SetPoint(index, curve[index]));
    PointsKeepChannel(t.port, d, curve, index + 1);
    NothingFailsPoints(t.port, d, curve, index + 1);
    if index + 1 < k {
      EveryBlendIsRun(t.port, d, curve, points, index + 1, k);
    } else {
      assert t.port.log[|p.log|].after.running == Mixed(curve, points, k);
    }
  }

  /** Every array the rewrite passes through is the running curve or the new one. */
  ghost predicate Harmless(c: Cell, curve: TemperatureCurve) {
    forall k: nat :: 0 < k <= CURVE_POINT_COUNT ==> Mixed(curve, c.points, k) in {c.running, curve}
  }

  lemma BlendsAreHarmless(p: Port, q: Port, curve: TemperatureCurve)
    requires AllBlends(p, q, p.cell.running, curve, p.cell.points) && Harmless(p.cell, curve)
    ensures NeverTorn(p, q, curve)
  {
  }

  /** The transfer that programs the device, with the new points in place. */
  lemma SwitchRunsABlend(
      p: Port, d: Driver, running: TemperatureCurve, curve: TemperatureCurve, points: TemperatureCurve)
    requires p.cell.points == curve && Blend(p.cell.running, running, curve, points)
    ensures AllBlends(p, Attempt(p, d, SetMode(PwmMode.Curve)).port, running, curve, points)
  {
    WholeMix(curve, points);
    var t := Attempt(p, d, SetMode(PwmMode.Curve));
    assert t.port.cell.running in {p.cell.running, Mixed(curve, points, CURVE_POINT_COUNT)};
  }

  /** A whole curve write whose curve mode goes unseen runs only blends, whatever fails. */
  lemma UnseenWriteRunsBlends(p: Port, d: Driver, curve: TemperatureCurve)
    requires !SeesCurveMode(p.cell, d)
    ensures AllBlends(p, ApplyCurve(p, d, curve).port, p.cell.running, curve, p.cell.points)
  {
    var running, points := p.cell.running, p.cell.points;
    WholeMix(curve, points);
    PointsRunBlends(p, d, running, curve, points, 0);
    var filled := StagePoints(p, d, curve, 0);
    if filled.ok {
      SwitchRunsABlend(filled.port, d, running, curve, points);
      BlendsJoin(p, filled.port, Attempt(filled.port, d, SetMode(PwmMode.Curve)).port, running, curve, points);
    }
  }

  /** And when nothing fails, every one of them. */
  lemma UnseenWriteRunsEveryBlend(p: Port, d: Driver, curve: TemperatureCurve, k: nat)
    requires !SeesCurveMode(p.cell, d) && p.faults == [] && 0 < k <= CURVE_POINT_COUNT
    ensures var q := ApplyCurve(p, d, curve).port;
      && p.log <= q.log && |p.log| + k - 1 < |q.log|
      && q.log[|p.log| + k - 1].after.running == Mixed(curve, p.cell.points, k)
  {
    WholeMix(curve, p.cell.points);
    EveryBlendIsRun(p, d, curve, p.cell.points, 0, k);
    NothingFailsPoints(p, d, curve, 0);
    var filled := StagePoints(p, d, curve, 0);
    var q := ApplyCurve(p, d, curve).port;
    assert filled.port.log <= q.log;
    assert q.log[|p.log| + k - 1] == filled.port.log[|p.log| + k - 1];
  }

  lemma SeenWriteIsNeverTorn(p: Port, d: Driver, curve: TemperatureCurve)
    requires SeesCurveMode(p.cell, d)
    ensures NeverTorn(p, ApplyCurve(p, d, curve).port, curve)
  {
    CurveWriteIsAtomic(p, d, curve);
  }

  /** The promise, exactly: no pattern of failing writes makes a curve write run a half-updated curve if
      and only if the writer sees curve mode, or no array on the way differs from both curves. One
      direction needs only the run in which nothing fails. */
  lemma CurveIsNeverTornExactlyWhen(p: Port, d: Driver, curve: TemperatureCurve)
    ensures (forall faults: seq<Fault> ::
               NeverTorn(p.(faults := faults), ApplyCurve(p.(faults := faults), d, curve).port, curve))
      <==> SeesCurveMode(p.cell, d) || Harmless(p.cell, curve)
    ensures NeverTorn(p.(faults := []), ApplyCurve(p.(faults := []), d, curve).port, curve)
      <==> SeesCurveMode(p.cell, d) || Harmless(p.cell, curve)
  {
    forall faults: seq<Fault> | SeesCurveMode(p.cell, d) || Harmless(p.cell, curve)
      ensures NeverTorn(p.(faults := faults), ApplyCurve(p.(faults := faults), d, curve).port, curve)
    {
      NotTorn(p.(faults := faults), d, curve);
    }
    if !SeesCurveMode(p.cell, d) && !Harmless(p.cell, curve) {
      TornWhenNothingFails(p.(faults := []), d, curve);
    }
  }

  lemma NotTorn(p: Port, d: Driver, curve: TemperatureCurve)
    requires SeesCurveMode(p.cell, d) || Harmless(p.cell, curve)
    ensures NeverTorn(p, ApplyCurve(p, d, curve).port, curve)
  {
    if SeesCurveMode(p.cell, d) {
      SeenWriteIsNeverTorn(p, d, curve);
    } else {
      UnseenWriteRunsBlends(p, d, curve);
      BlendsAreHarmless(p, ApplyCurve(p, d, curve).port, curve);
    }
  }

  lemma TornWhenNothingFails(p: Port, d: Driver, curve: TemperatureCurve)
    requires p.faults == [] && !SeesCurveMode(p.cell, d) && !Harmless(p.cell, curve)
    ensures !NeverTorn(p, ApplyCurve(p, d, curve).port, curve)
  {
    var k: nat :| 0 < k <= CURVE_POINT_COUNT && Mixed(curve, p.cell.points, k) !in {p.cell.running, curve};
    UnseenWriteRunsEveryBlend(p, d, curve, k);
  }

  /** A concrete tear: a channel running sixty everywhere, sent a hundred everywhere, runs one point at a
      hundred above thirty-nine at sixty. */
  lemma AHalfUpdatedCurveIsRun(p: Port, d: Driver)
    requires p.cell == Cell(PwmMode.Curve, 60, Flat(60), Flat(60), 1) && p.faults == [] && !d.modeReadable
    ensures var q := ApplyCurve(p, d, Flat(100)).port;
      && |p.log| < |q.log|
      && q.log[|p.log|].after.running == Flat(60)[0 := 100]
      && q.log[|p.log|].after.running !in {Flat(60), Flat(100)}
  {
    UnseenWriteRunsEveryBlend(p, d, Flat(100), 1);
    assert Mixed(Flat(100), Flat(60), 1) == Flat(60)[0 := 100];
    assert Flat(60)[0 := 100][0] != Flat(60)[0] && Flat(60)[0 := 100][1] != Flat(100)[1];
  }

  /** The same duty at every temperature. */
  function Flat(duty: byte): TemperatureCurve {
    seq(CURVE_POINT_COUNT, _ => duty)
  }

  // ---------------------------------------------------------------- a whole transaction, whatever is readable

  /** The curve the channel ran when the transaction began, or an array its rewrite passes through. */
  ghost predicate Passed(ran: TemperatureCurve, was: Cell, curve: TemperatureCurve) {
    ran == was.running || exists k: nat :: k <= CURVE_POINT_COUNT && ran == Mixed(curve, was.points, k)
  }

  /** The channel part of the way: what it runs, and what is in its array. */
  ghost predicate OnTheWay(c: Cell, was: Cell, curve: TemperatureCurve) {
    Passed(c.running, was, curve) && exists k: nat :: k <= CURVE_POINT_COUNT && c.points == Mixed(curve, was.points, k)
  }

  ghost predicate AllPassed(p: Port, q: Port, was: Cell, curve: TemperatureCurve) {
    && p.log <= q.log
    && forall k :: |p.log| <= k < |q.log| ==>
         && q.log[k].channel == p.channel
         && Passed(q.log[k].before.running, was, curve)
         && Passed(q.log[k].after.running, was, curve)
  }

  lemma PassedJoins(p: Port, q: Port, r: Port, was: Cell, curve: TemperatureCurve)
    requires AllPassed(p, q, was, curve) && AllPassed(q, r, was, curve) && q.channel == p.channel
    ensures AllPassed(p, r, was, curve)
  {
    forall k | |p.log| <= k < |r.log|
      ensures r.log[k].channel == p.channel
      ensures Passed(r.log[k].before.running, was, curve) && Passed(r.log[k].after.running, was, curve)
    {
      if k < |q.log| { assert r.log[k] == q.log[k]; }
    }
  }

  /** Any write but a point, in the middle of a rewrite. */
  lemma StepPasses(p: Port, d: Driver, w: Write, was: Cell, curve: TemperatureCurve)
    requires !w.SetPoint? && OnTheWay(p.cell, was, curve)
    ensures var t := Attempt(p, d, w);
      t.port.channel == p.channel && AllPassed(p, t.port, was, curve) && OnTheWay(t.port.cell, was, curve)
  {
    var t := Attempt(p, d, w);
    assert t.port.cell.points == p.cell.points && t.port.cell.running in {p.cell.running, p.cell.points};
  }

  lemma PointPasses(p: Port, d: Driver, was: Cell, curve: TemperatureCurve, index: nat)
    requires index < CURVE_POINT_COUNT
    requires p.cell.points == Mixed(curve, was.points, index) && Passed(p.cell.running, was, curve)
    ensures var t := Attempt(p, d, SetPoint(index, curve[index]));
      && t.port.channel == p.channel && AllPassed(p, t.port, was, curve) && OnTheWay(t.port.cell, was, curve)
      && (t.ok ==> t.port.cell.points == Mixed(curve, was.points, index + 1))
  {
    OneMorePoint(curve, was.points, index);
    var t := Attempt(p, d, SetPoint(index, curve[index]));
    assert t.port.cell.running in {p.cell.running, Mixed(curve, was.points, index + 1)};
    assert t.port.cell.points in {Mixed(curve, was.points, index), Mixed(curve, was.points, index + 1)};
  }

  lemma {:induction false} PointsPass(p: Port, d: Driver, was: Cell, curve: TemperatureCurve, index: nat)
    requires index <= CURVE_POINT_COUNT
    requires p.cell.points == Mixed(curve, was.points, index) && Passed(p.cell.running, was, curve)
    ensures var t := StagePoints(p, d, curve, index);
      t.port.channel == p.channel && AllPassed(p, t.port, was, curve) && OnTheWay(t.port.cell, was, curve)
    decreases CURVE_POINT_COUNT - index
  {
    if index < CURVE_POINT_COUNT {
      PointPasses(p, d, was, curve, index);
      var t := Attempt(p, d, SetPoint(index, curve[index]));
      if t.ok {
        PointsPass(t.port, d, was, curve, index + 1);
        PassedJoins(p, t.port, StagePoints(t.port, d, curve, index + 1).port, was, curve);
      }
    }
  }

  /** Staging from the channel as it was found. */
  lemma StagingPasses(p: Port, d: Driver, curve: TemperatureCurve)
    ensures var s := StageCurve(p, d, curve);
      s.port.channel == p.channel && AllPassed(p, s.port, p.cell, curve) && OnTheWay(s.port.cell, p.cell, curve)
  {
    var was := p.cell;
    WholeMix(curve, was.points);
    assert OnTheWay(was, was, curve);
    if ReadMode(p.cell, d) == Some(PwmMode.Curve) {
      var holding := TransitionDuty(p, d, curve);
      StepPasses(p, d, SetDuty(holding), was, curve);
      var held := Attempt(p, d, SetDuty(holding));
      if held.ok {
        StepPasses(held.port, d, SetMode(PwmMode.Fixed), was, curve);
        var left := Attempt(held.port, d, SetMode(PwmMode.Fixed));
        PassedJoins(p, held.port, left.port, was, curve);
        if left.ok {
          PointsPass(left.port, d, was, curve, 0);
          PassedJoins(p, left.port, StagePoints(left.port, d, curve, 0).port, was, curve);
        }
      }
    } else {
      PointsPass(p, d, was, curve, 0);
    }
  }

  lemma TargetPasses(p: Port, d: Driver, t: Target, curve: TemperatureCurve)
    requires t.Along? ==> t.curve == curve
    ensures var o := WriteTarget(p, d, t);
      o.port.channel == p.channel && AllPassed(p, o.port, p.cell, curve) && OnTheWay(o.port.cell, p.cell, curve)
  {
    var was := p.cell;
    WholeMix(curve, was.points);
    assert OnTheWay(was, was, curve);
    match t
    case FixedAt(duty) =>
      StepPasses(p, d, SetDuty(duty), was, curve);
      var first := Attempt(p, d, SetDuty(duty));
      StepPasses(first.port, d, SetMode(PwmMode.Fixed), was, curve);
      PassedJoins(p, first.port, Attempt(first.port, d, SetMode(PwmMode.Fixed)).port, was, curve);
    case Along(_) =>
      StagingPasses(p, d, curve);
      var s := StageCurve(p, d, curve);
      if s.ok {
        StepPasses(s.port, d, SetMode(PwmMode.Curve), was, curve);
        PassedJoins(p, s.port, Attempt(s.port, d, SetMode(PwmMode.Curve)).port, was, curve);
      }
  }

  /** The duty and the mode of a restore, over an array that holds nothing new. */
  lemma RestoringStepsPass(p: Port, d: Driver, s: Snapshot, was: Cell, curve: TemperatureCurve)
    requires OnTheWay(p.cell, was, curve) && !(s.mode == Some(PwmMode.Curve) && s.curve.Some?)
    ensures AllPassed(p, Restore(p, d, s).port, was, curve) && Restore(p, d, s).port.channel == p.channel
  {
    var q := p;
    if s.duty.Some? && ReadDuty(q.cell, d) != s.duty {
      StepPasses(q, d, SetDuty(s.duty.value), was, curve);
      var dutied := Attempt(q, d, SetDuty(s.duty.value));
      if !dutied.ok {
        return;
      }
      q := dutied.port;
    }
    if s.mode.Some? && ReadMode(q.cell, d) != s.mode {
      StepPasses(q, d, SetMode(s.mode.value), was, curve);
      PassedJoins(p, q, Attempt(q, d, SetMode(s.mode.value)).port, was, curve);
    }
  }

  /** A whole rollback of one channel: a recorded curve goes back in one piece. */
  lemma RestorePasses(p: Port, d: Driver, s: Snapshot, was: Cell, curve: TemperatureCurve)
    requires OnTheWay(p.cell, was, curve)
    requires s.mode == Some(PwmMode.Curve) && s.curve.Some? ==> d.modeReadable && s.curve.value == was.running
    ensures AllPassed(p, Restore(p, d, s).port, was, curve) && Restore(p, d, s).port.channel == p.channel
  {
    if s.mode == Some(PwmMode.Curve) && s.curve.Some? {
      RestoreIsAtomic(p, d, s, p.cell.running, was.running);
      WholeIsPassed(p, Restore(p, d, s).port, p.cell.running, was, curve);
    } else {
      RestoringStepsPass(p, d, s, was, curve);
    }
  }

  lemma WholeIsPassed(p: Port, q: Port, running: TemperatureCurve, was: Cell, curve: TemperatureCurve)
    requires AllWhole(p, q, running, was.running) && Passed(running, was, curve)
    ensures AllPassed(p, q, was, curve)
  {
  }

  // ---------------------------------------------------------------- both channels

  ghost predicate LogPassed(b: Board, program: Program, from: seq<Entry>, to: seq<Entry>) {
    && from <= to
    && forall k :: |from| <= k < |to| ==> EntryPassed(b, program, to[k])
  }

  ghost predicate EntryPassed(b: Board, program: Program, e: Entry) {
    var was, curve := b.Cell(e.channel), CoolingRuns.CurveAfter(b, program, e.channel);
    Passed(e.before.running, was, curve) && Passed(e.after.running, was, curve)
  }

  ghost predicate BothOnTheWay(b: Board, program: Program, at: Board) {
    forall c: Channel :: OnTheWay(at.Cell(c), b.Cell(c), CoolingRuns.CurveAfter(b, program, c))
  }

  lemma PortPassedIsLogged(b: Board, program: Program, p: Port, q: Port)
    requires AllPassed(p, q, b.Cell(p.channel), CoolingRuns.CurveAfter(b, program, p.channel))
    ensures LogPassed(b, program, p.log, q.log)
  {
  }

  lemma LoggedJoins(b: Board, program: Program, x: seq<Entry>, y: seq<Entry>, z: seq<Entry>)
    requires LogPassed(b, program, x, y) && LogPassed(b, program, y, z)
    ensures LogPassed(b, program, x, z)
  {
    forall k | |x| <= k < |z| ensures EntryPassed(b, program, z[k]) {
      if k < |y| { assert z[k] == y[k]; }
    }
  }

  lemma WritingOnePasses(
      b: Board, at: Progress, m: Machine, now: Instant, wall: nat, program: Program, c: Channel, settled: Option<Readback>)
    requires !program.Onboard? && BothOnTheWay(b, program, at.board) && at.board.Cell(c) == b.Cell(c)
    ensures var w := WriteOne(at, m, now, wall, c, TargetFor(program, c), settled);
      && BothOnTheWay(b, program, w.at.board) && LogPassed(b, program, at.board.log, w.at.board.log)
      && w.at.board.Cell(c.Other()) == at.board.Cell(c.Other())
  {
    if settled.None? {
      var t := TargetFor(program, c);
      TargetPasses(at.board.Port(c), m.Driver(c), t, CoolingRuns.CurveAfter(b, program, c));
      PortPassedIsLogged(b, program, at.board.Port(c), WriteTarget(at.board.Port(c), m.Driver(c), t).port);
    }
  }

  lemma {:induction false} WritingPasses(
      b: Board, at: Progress, m: Machine, now: Instant, wall: nat, program: Program,
      settled: seq<Option<Readback>>, i: nat)
    requires !program.Onboard? && |settled| == 2 && i <= 2 && BothOnTheWay(b, program, at.board)
    requires forall j :: i <= j < 2 ==> at.board.Cell(ORDER[j]) == b.Cell(ORDER[j])
    ensures var w := WriteFrom(at, m, now, wall, program, settled, i);
      BothOnTheWay(b, program, w.at.board) && LogPassed(b, program, at.board.log, w.at.board.log)
    decreases 2 - i
  {
    if i < 2 {
      var c := ORDER[i];
      WritingOnePasses(b, at, m, now, wall, program, c, settled[i]);
      var one := WriteOne(at, m, now, wall, c, TargetFor(program, c), settled[i]);
      if one.Finished? {
        assert i == 0 ==> ORDER[1] == c.Other();
        WritingPasses(b, one.at, m, now, wall, program, settled, i + 1);
        LoggedJoins(b, program, at.board.log, one.at.board.log,
                    WriteFrom(one.at, m, now, wall, program, settled, i + 1).at.board.log);
      }
    }
  }

  /** The rollback loop; each channel still to be restored is where the writing loop left it. */
  lemma {:induction false} RollbackPasses(
      b: Board, at: RolledBack, m: Machine, wall: nat, program: Program, snapshots: seq<Snapshot>, i: nat)
    requires |snapshots| == 2 && i <= 2 && forall j :: 0 <= j < 2 ==> snapshots[j].channel == ORDER[j]
    requires forall j :: 0 <= j < 2 && snapshots[j].mode == Some(PwmMode.Curve) && snapshots[j].curve.Some? ==>
      m.Driver(ORDER[j]).modeReadable && snapshots[j].curve.value == b.Cell(ORDER[j]).running
    requires forall j :: i <= j < 2 ==>
      OnTheWay(at.board.Cell(ORDER[j]), b.Cell(ORDER[j]), CoolingRuns.CurveAfter(b, program, ORDER[j]))
    ensures LogPassed(b, program, at.board.log, RestoreFrom(at, m, wall, snapshots, i).board.log)
    decreases 2 - i
  {
    if i < 2 {
      var s := snapshots[i];
      var c := s.channel;
      RestorePasses(at.board.Port(c), m.Driver(c), s, b.Cell(c), CoolingRuns.CurveAfter(b, program, c));
      var r := Restore(at.board.Port(c), m.Driver(c), s);
      PortPassedIsLogged(b, program, at.board.Port(c), r.port);
      var next := RolledBack(Rerecord(at.executor, s, r.verified, wall), at.board.With(c, r.port),
                             at.restored && r.verified.Proven?);
      assert next.board.Cell(c.Other()) == at.board.Cell(c.Other()) && (i == 0 ==> ORDER[1] == c.Other());
      RollbackPasses(b, next, m, wall, program, snapshots, i + 1);
      LoggedJoins(b, program, at.board.log, next.board.log,
                  RestoreFrom(next, m, wall, snapshots, i + 1).board.log);
    }
  }

  lemma TransactPasses(ex: Executor, b: Board, m: Machine, now: Instant, wall: nat, program: Program)
    requires Sound(ex, b) && !program.Onboard?
    ensures LogPassed(b, program, b.log, Transact(ex, b, m, now, wall, program).board.log)
  {
    var start, settled := Progress(ex, b, 0, []), Settled(ex, b, m, program);
    forall c: Channel ensures OnTheWay(b.Cell(c), b.Cell(c), CoolingRuns.CurveAfter(b, program, c)) {
      WholeMix(CoolingRuns.CurveAfter(b, program, c), b.Cell(c).points);
    }
    WritingPasses(b, start, m, now, wall, program, settled, 0);
    var w := WriteFrom(start, m, now, wall, program, settled, 0);
    if w.Broke? {
      var from := RolledBack(w.at.executor, w.at.board, true);
      SnapshotsAreTrue(ex, b, m);
      RollbackPasses(b, from, m, wall, program, Snapshots(ex, b, m), 0);
      LoggedJoins(b, program, b.log, w.at.board.log, RestoreFrom(from, m, wall, Snapshots(ex, b, m), 0).board.log);
    }
  }

  lemma SnapshotsAreTrue(ex: Executor, b: Board, m: Machine)
    requires Sound(ex, b)
    ensures var snapshots := Snapshots(ex, b, m);
      forall j :: 0 <= j < 2 ==>
        && snapshots[j].channel == ORDER[j]
        && (snapshots[j].mode == Some(PwmMode.Curve) && snapshots[j].curve.Some? ==>
              m.Driver(ORDER[j]).modeReadable && snapshots[j].curve.value == b.Cell(ORDER[j]).running)
  {
  }

  /** What a channel may run in the worst case, with nothing assumed readable or recorded: at every write of a
      call and its rollback, the curve it ran before, or what was its array rewritten up to some point. */
  lemma ApplyRunsOnlyBlends(
      ex: Executor, b: Board, m: Machine, bound: bool, now: Instant, wall: nat, program: Program)
    requires Sound(ex, b)
    ensures LogPassed(b, program, b.log, Apply(ex, b, m, bound, now, wall, program).board.log)
  {
    if !program.Onboard? && (ex.control || bound) {
      TransactPasses(ex.(control := true), b, m, now, wall, program);
    }
  }

  /** And that case is real: a pump found in curve mode by a process that never set it is left, by a rollback,
      running the new curve's first point over the old array. The answer is then never better than Uncertain. */
  lemma AnUnrecordedCurveComesBackTorn(
      ex: Executor, b: Board, m: Machine, now: Instant, wall: nat, fan: TemperatureCurve)
    requires ex == Executor(true, map[], None) && b.faults == [Lands, Lands, Lands, FailsLost]
    requires b.pump == Cell(PwmMode.Curve, 60, Flat(60), Flat(60), 1)
    requires m.pump.modeReadable && m.pump.dutyReadable && m.pump.reported == 60 && m.pump.rounding[60] == 60
    ensures var a := Apply(ex, b, m, true, now, wall, Program.Curve(Flat(100), fan));
      && a.board.pump.mode.Curve? && a.board.pump.running == Flat(60)[0 := 100]
      && a.outcome.hardware.Uncertain?
  {
    var program := Program.Curve(Flat(100), fan);
    var start, settled := Progress(ex, b, 0, []), Settled(ex, b, m, program);
    var p := b.Port(Pump);
    StagingStopsAtTheSecondPoint(p, m.pump);
    var stopped := ApplyCurve(p, m.pump, Flat(100)).port;
    assert settled[0].None? && ORDER[0] == Pump && ORDER[1] == Fan;
    var one := WriteOne(start, m, now, wall, Pump, Along(Flat(100)), None);
    assert one.Broke? && one.at.board == b.With(Pump, stopped);
    assert WriteFrom(start, m, now, wall, program, settled, 0) == one;
    var snapshots := Snapshots(ex, b, m);
    assert snapshots[0] == Snapshot(Pump, Some(PwmMode.Curve), Some(60), None);
    var r := Restore(stopped, m.pump, snapshots[0]);
    var again := Attempt(stopped, m.pump, SetMode(PwmMode.Curve));
    assert r.port == again.port && r.verified.Unproven? && r.port.cell.running == Flat(60)[0 := 100];
    var from := RolledBack(one.at.executor, one.at.board, true);
    var next := RolledBack(Rerecord(from.executor, snapshots[0], r.verified, wall), from.board.With(Pump, r.port), false);
    assert RestoreFrom(from, m, wall, snapshots, 0) == RestoreFrom(next, m, wall, snapshots, 1);
    assert snapshots[1].channel == Fan;
    TheFansRollbackLeavesThePump(next, m, wall, snapshots);
  }

  lemma StagingStopsAtTheSecondPoint(p: Port, d: Driver)
    requires p.faults == [Lands, Lands, Lands, FailsLost] && p.channel == Pump
    requires p.cell == Cell(PwmMode.Curve, 60, Flat(60), Flat(60), 1)
    requires d.modeReadable && d.dutyReadable && d.reported == 60 && d.rounding[60] == 60
    ensures var o := ApplyCurve(p, d, Flat(100));
      && o.Failed? && o.port.channel == Pump && o.port.faults == []
      && o.port.cell == Cell(PwmMode.Fixed, 60, Flat(60)[0 := 100], Flat(60), 1)
  {
    var curve := Flat(100);
    assert TransitionDuty(p, d, curve) == 60;
    var held := Attempt(p, d, SetDuty(60));
    var left := Attempt(held.port, d, SetMode(PwmMode.Fixed));
    var first := Attempt(left.port, d, SetPoint(0, curve[0]));
    var second := Attempt(first.port, d, SetPoint(1, curve[1]));
    assert held.port.faults == [Lands, Lands, FailsLost] && left.port.faults == [Lands, FailsLost];
    assert first.ok && first.port.faults == [FailsLost] && !second.ok;
    assert StagePoints(first.port, d, curve, 1) == second;
    assert StagePoints(left.port, d, curve, 0) == second;
  }

  lemma TheFansRollbackLeavesThePump(at: RolledBack, m: Machine, wall: nat, snapshots: seq<Snapshot>)
    requires |snapshots| == 2 && snapshots[1].channel == Fan
    ensures var r := RestoreFrom(at, m, wall, snapshots, 1);
      r.board.pump == at.board.pump && (!at.restored ==> !r.restored)
  {
    var r := Restore(at.board.Port(Fan), m.fan, snapshots[1]);
    var next := RolledBack(Rerecord(at.executor, snapshots[1], r.verified, wall), at.board.With(Fan, r.port),
                           at.restored && r.verified.Proven?);
    assert RestoreFrom(next, m, wall, snapshots, 2) == next;
  }
}
