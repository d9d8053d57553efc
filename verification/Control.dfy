/**
 One cooling channel behind the `kraken2023` driver, and what each step of the sysfs writer
 does to it. Models crates/hardware-linux/src/control.rs on values; `CoolingWriter.dfy` holds
 the same steps as methods over a mutable device.
 */
module Control {
  import opened Basics
  import opened Profiles

  datatype PwmMode = FullSpeed | Fixed | Curve

  /** One channel: its mode, the duty stored in `pwmN`, the driver's in-memory curve array, the
      curve the device was last sent, and how many times a curve was sent. */
  datatype Cell = Cell(
    mode: PwmMode, duty: byte, points: TemperatureCurve, running: TemperatureCurve, transfers: nat)

  type Rounding = s: seq<byte> | |s| == 256 witness seq(256, _ => 0)

  /** What the machine answers during one transaction on one channel.

      `reported` is the duty the firmware publishes while the channel is not in direct mode, and
      `rounding` is what a written duty is stored as. Curve points are never readable. */
  datatype Driver = Driver(
    modeReadable: bool, dutyReadable: bool, reported: byte, liquid: Option<int>, rounding: Rounding)

  /** How one attribute write ends. A write that failed may have landed all the same. */
  datatype Fault = Lands | FailsLanded | FailsLost

  datatype Write = SetDuty(duty: byte) | SetMode(mode: PwmMode) | SetPoint(index: PointIndex, value: byte)

  /** One attempted write, with the channel as it stood before and after. */
  datatype Entry = Entry(channel: Channel, write: Write, before: Cell, after: Cell)

  /** One channel together with the writes still to fail and the writes already attempted.
      Writes past the end of `faults` land. */
  datatype Port = Port(channel: Channel, cell: Cell, faults: seq<Fault>, log: seq<Entry>)

  /** The driver's reaction to a write that reaches it. Sending the array is what a point write
      does in curve mode and what switching to curve mode does. */
  function Land(c: Cell, d: Driver, w: Write): Cell {
    match w
    case SetDuty(v) => c.(duty := d.rounding[v])
    case SetMode(m) =>
      if m.Curve? then c.(mode := m, running := c.points, transfers := c.transfers + 1)
      else c.(mode := m)
    case SetPoint(i, v) =>
      var stored := c.(points := c.points[i := v]);
      if c.mode.Curve? then stored.(running := stored.points, transfers := c.transfers + 1)
      else stored
  }

  datatype Tried = Tried(ok: bool, port: Port)

  /** Write one attribute. */
  function Attempt(p: Port, d: Driver, w: Write): Tried {
    var fault := if p.faults == [] then Lands else p.faults[0];
    var after := if fault.FailsLost? then p.cell else Land(p.cell, d, w);
    Tried(fault.Lands?,
          p.(cell := after,
             faults := if p.faults == [] then [] else p.faults[1..],
             log := p.log + [Entry(p.channel, w, p.cell, after)]))
  }

  function ReadMode(c: Cell, d: Driver): Option<PwmMode> {
    if d.modeReadable then Some(c.mode) else None
  }

  function ReadDuty(c: Cell, d: Driver): Option<byte> {
    if !d.dutyReadable then None
    else if c.mode.Fixed? then Some(c.duty)
    else Some(d.reported)
  }

  datatype Readback = Readback(channel: Channel, mode: Option<PwmMode>, duty: Option<byte>, mismatch: bool)

  datatype Applied = Applied(readback: Readback, writes: nat)

  datatype Outcome = Done(port: Port, applied: Applied) | Failed(port: Port)

  function ReadBack(p: Port, d: Driver): Readback {
    Readback(p.channel, ReadMode(p.cell, d), ReadDuty(p.cell, d), false)
  }

  // ---------------------------------------------------------------- applying

  function ApplyFixed(p: Port, d: Driver, duty: byte): Outcome {
    var first := Attempt(p, d, SetDuty(duty));
    if !first.ok then Failed(first.port) else
    var second := Attempt(first.port, d, SetMode(PwmMode.Fixed));
    if !second.ok then Failed(second.port) else
    var back := ReadBack(second.port, d);
    Done(second.port,
         Applied(back.(mismatch := back.mode != Some(PwmMode.Fixed) || back.duty != Some(duty)), 2))
  }

  /** The duty held while a curve is rewritten. */
  function TransitionDuty(p: Port, d: Driver, curve: TemperatureCurve): byte {
    var held :=
      if ReadDuty(p.cell, d).Some? then ReadDuty(p.cell, d).value
      else if d.liquid.Some? then DutyAt(curve, d.liquid.value)
      else HighestDuty(curve);
    Max(held, p.channel.MinDuty())
  }

  /** The forty point writes, from `index` on. */
  function StagePoints(p: Port, d: Driver, curve: TemperatureCurve, index: nat): Tried
    requires index <= CURVE_POINT_COUNT
    decreases CURVE_POINT_COUNT - index
  {
    if index == CURVE_POINT_COUNT then Tried(true, p) else
    var t := Attempt(p, d, SetPoint(index, curve[index]));
    if t.ok then StagePoints(t.port, d, curve, index + 1) else t
  }

  datatype Staged = Staged(ok: bool, port: Port, writes: nat)

  /** Leave curve mode when the channel reads as being in it, then fill the array. */
  function StageCurve(p: Port, d: Driver, curve: TemperatureCurve): Staged {
    if ReadMode(p.cell, d) == Some(PwmMode.Curve) then
      var held := Attempt(p, d, SetDuty(TransitionDuty(p, d, curve)));
      if !held.ok then Staged(false, held.port, 0) else
      var left := Attempt(held.port, d, SetMode(PwmMode.Fixed));
      if !left.ok then Staged(false, left.port, 0) else
      var filled := StagePoints(left.port, d, curve, 0);
      Staged(filled.ok, filled.port, 2 + CURVE_POINT_COUNT)
    else
      var filled := StagePoints(p, d, curve, 0);
      Staged(filled.ok, filled.port, CURVE_POINT_COUNT)
  }

  function ApplyCurve(p: Port, d: Driver, curve: TemperatureCurve): Outcome {
    var staged := StageCurve(p, d, curve);
    if !staged.ok then Failed(staged.port) else
    var switched := Attempt(staged.port, d, SetMode(PwmMode.Curve));
    if !switched.ok then Failed(switched.port) else
    var back := ReadBack(switched.port, d);
    Done(switched.port,
         Applied(back.(mismatch := back.mode != Some(PwmMode.Curve)), staged.writes + 1))
  }

  // ---------------------------------------------------------------- snapshot and restore

  datatype Snapshot = Snapshot(
    channel: Channel, mode: Option<PwmMode>, duty: Option<byte>, curve: Option<TemperatureCurve>)
  {
    function WithCurve(recorded: Option<TemperatureCurve>): Snapshot {
      if curve.None? then this.(curve := recorded) else this
    }

    predicate RestoresBehavior() {
      match mode
      case None => false
      case Some(FullSpeed) => true
      case Some(Fixed) => duty.Some?
      case Some(Curve) => curve.Some?
    }
  }

  function TakeSnapshot(p: Port, d: Driver): Snapshot {
    Snapshot(p.channel, ReadMode(p.cell, d), ReadDuty(p.cell, d), None)
  }

  datatype Verified = Proven | Unproven | Errored

  datatype Restored = Restored(verified: Verified, port: Port)

  function Restore(p: Port, d: Driver, s: Snapshot): Restored {
    var staged :=
      if s.mode == Some(PwmMode.Curve) && s.curve.Some? then StageCurve(p, d, s.curve.value)
      else Staged(true, p, 0);
    if !staged.ok then Restored(Errored, staged.port) else
    var dutied :=
      if s.duty.Some? && ReadDuty(staged.port.cell, d) != s.duty
      then Attempt(staged.port, d, SetDuty(s.duty.value))
      else Tried(true, staged.port);
    if !dutied.ok then Restored(Errored, dutied.port) else
    var moded :=
      if s.mode.Some? && ReadMode(dutied.port.cell, d) != s.mode
      then Attempt(dutied.port, d, SetMode(s.mode.value))
      else Tried(true, dutied.port);
    if !moded.ok then Restored(Errored, moded.port) else
    var confirmed :=
      && s.RestoresBehavior()
      && (s.mode.Some? ==> ReadMode(moded.port.cell, d) == s.mode)
      && (s.mode == Some(PwmMode.Fixed) && s.duty.Some? ==> ReadDuty(moded.port.cell, d) == s.duty);
    Restored(if confirmed then Proven else Unproven, moded.port)
  }

  // ---------------------------------------------------------------- what the log must say

  /** The point writes of a rewrite can only tear a curve when the channel is running one and
      the writer cannot see that it is. */
  predicate SeesCurveMode(c: Cell, d: Driver) {
    d.modeReadable || !c.mode.Curve?
  }

  /** At this write the device ran `was` or `sent`, whole, and no point was written into a channel
      in curve mode. */
  ghost predicate Whole(e: Entry, was: TemperatureCurve, sent: TemperatureCurve) {
    && e.before.running in {was, sent}
    && e.after.running in {was, sent}
    && (e.write.SetPoint? ==> !e.before.mode.Curve?)
  }

  /** Every entry `q` has beyond `p` is whole. */
  ghost predicate AllWhole(p: Port, q: Port, was: TemperatureCurve, sent: TemperatureCurve) {
    && p.log <= q.log
    && forall k :: |p.log| <= k < |q.log| ==> q.log[k].channel == p.channel && Whole(q.log[k], was, sent)
  }

  /** A pump is never sent less than its floor, save the duty a rollback is exempted for. */
  ghost predicate Floored(e: Entry, exempt: Option<byte>) {
    match e.write
    case SetDuty(v) => e.channel.MinDuty() <= v || exempt == Some(v)
    case SetPoint(_, v) => e.channel.MinDuty() <= v
    case SetMode(_) => true
  }

  ghost predicate AllFloored(p: Port, q: Port, exempt: Option<byte>) {
    && p.log <= q.log
    && forall k :: |p.log| <= k < |q.log| ==> q.log[k].channel == p.channel && Floored(q.log[k], exempt)
  }

  // ---------------------------------------------------------------- staging

  /** Filling the array below curve mode leaves the running curve alone wherever it stops, and
      leaves exactly the new points behind when it does not. */
  lemma {:induction false} StagePointsQuiet(p: Port, d: Driver, curve: TemperatureCurve, index: nat)
    requires index <= CURVE_POINT_COUNT && !p.cell.mode.Curve?
    requires p.cell.points[..index] == curve[..index]
    ensures var t := StagePoints(p, d, curve, index);
      && t.port.channel == p.channel
      && t.port.cell == p.cell.(points := t.port.cell.points)
      && AllWhole(p, t.port, p.cell.running, p.cell.running)
      && (t.ok ==> t.port.cell.points == curve && |t.port.log| == |p.log| + CURVE_POINT_COUNT - index)
    decreases CURVE_POINT_COUNT - index
  {
    if index < CURVE_POINT_COUNT {
      var t := Attempt(p, d, SetPoint(index, curve[index]));
      if t.ok {
        StagePointsQuiet(t.port, d, curve, index + 1);
      }
    }
  }

  /** In curve mode every one of those writes sends the array, torn or not. */
  lemma {:induction false} StagePointsBurst(p: Port, d: Driver, curve: TemperatureCurve, index: nat)
    requires index <= CURVE_POINT_COUNT && p.cell.mode.Curve?
    ensures var t := StagePoints(p, d, curve, index);
      && t.port.cell.mode.Curve?
      && p.log <= t.port.log
      && (index < CURVE_POINT_COUNT ==>
            |p.log| < |t.port.log| && t.port.log[|p.log|].write.SetPoint? && t.port.log[|p.log|].before == p.cell)
      && (t.ok ==> t.port.cell.transfers == p.cell.transfers + CURVE_POINT_COUNT - index)
    decreases CURVE_POINT_COUNT - index
  {
    if index < CURVE_POINT_COUNT {
      var t := Attempt(p, d, SetPoint(index, curve[index]));
      if t.ok {
        StagePointsBurst(t.port, d, curve, index + 1);
      }
    }
  }

  /** Staging never changes what the device runs, and ends outside curve mode with the new points
      in the array; the count it reports is the number of attributes it wrote. */
  lemma StageCurveQuiet(p: Port, d: Driver, curve: TemperatureCurve)
    requires SeesCurveMode(p.cell, d)
    ensures var s := StageCurve(p, d, curve);
      && s.port.channel == p.channel
      && s.port.cell.running == p.cell.running
      && s.port.cell.transfers == p.cell.transfers
      && AllWhole(p, s.port, p.cell.running, p.cell.running)
      && (s.ok ==>
            && s.port.cell.points == curve
            && !s.port.cell.mode.Curve?
            && |s.port.log| == |p.log| + s.writes)
  {
    if p.cell.mode.Curve? {
      var running := p.cell.running;
      var held := Attempt(p, d, SetDuty(TransitionDuty(p, d, curve)));
      if held.ok {
        var left := Attempt(held.port, d, SetMode(PwmMode.Fixed));
        assert AllWhole(p, left.port, running, running);
        if left.ok {
          StagePointsQuiet(left.port, d, curve, 0);
          WholeJoins(p, left.port, StagePoints(left.port, d, curve, 0).port, running);
        }
      }
    } else {
      StagePointsQuiet(p, d, curve, 0);
    }
  }

  lemma WholeJoins(p: Port, q: Port, r: Port, running: TemperatureCurve)
    requires AllWhole(p, q, running, running) && AllWhole(q, r, running, running) && q.channel == p.channel
    ensures AllWhole(p, r, running, running)
  {
    forall k | |p.log| <= k < |r.log| ensures r.log[k].channel == p.channel && Whole(r.log[k], running, running) {
      if k < |q.log| { assert r.log[k] == q.log[k]; }
    }
  }

  // ---------------------------------------------------------------- a curve is never torn

  /** Wherever a curve write stops, the device has only ever run the whole old curve or the whole
      new one; when it completes it was exactly one transfer, and the count it reports, 41 or 43,
      is the number of attributes written. */
  lemma CurveWriteIsAtomic(p: Port, d: Driver, curve: TemperatureCurve)
    requires SeesCurveMode(p.cell, d)
    ensures var o := ApplyCurve(p, d, curve);
      && AllWhole(p, o.port, p.cell.running, curve)
      && o.port.channel == p.channel
      && o.port.cell.running in {p.cell.running, curve}
      && (o.Done? ==>
            && o.port.cell.mode.Curve?
            && o.port.cell.running == curve
            && o.port.cell.transfers == p.cell.transfers + 1
            && o.applied.writes == |o.port.log| - |p.log|
            && o.applied.writes == if p.cell.mode.Curve? then 43 else 41)
  {
    StageCurveQuiet(p, d, curve);
    var s := StageCurve(p, d, curve);
    assert AllWhole(p, s.port, p.cell.running, curve);
    if s.ok {
      WholeStep(p, s.port, d, SetMode(PwmMode.Curve), p.cell.running, curve);
    }
  }

  /** The guard is exact. A writer that cannot see curve mode writes its first point into it,
      whatever fails, and a rewrite it completes costs forty-one transfers instead of one. */
  lemma CurveWriteIsQuietExactlyWhenModeIsSeen(p: Port, d: Driver, curve: TemperatureCurve)
    ensures var o := ApplyCurve(p, d, curve);
      && p.log <= o.port.log
      && ((forall k :: |p.log| <= k < |o.port.log| && o.port.log[k].write.SetPoint?
                       ==> !o.port.log[k].before.mode.Curve?)
          <==> SeesCurveMode(p.cell, d))
      && (o.Done? ==>
            o.port.cell.transfers - p.cell.transfers == if SeesCurveMode(p.cell, d) then 1 else 41)
  {
    if SeesCurveMode(p.cell, d) {
      CurveWriteIsAtomic(p, d, curve);
    } else {
      StagePointsBurst(p, d, curve, 0);
      var o := ApplyCurve(p, d, curve);
      var first := o.port.log[|p.log|];
      assert first.write.SetPoint? && first.before.mode.Curve?;
    }
  }

  // ---------------------------------------------------------------- a channel is on its target

  datatype Target = FixedAt(duty: byte) | Along(curve: TemperatureCurve) {
    function Mode(): PwmMode {
      match this
      case FixedAt(_) => PwmMode.Fixed
      case Along(_) => PwmMode.Curve
    }
  }

  predicate OnTarget(c: Cell, t: Target) {
    match t
    case FixedAt(duty) => c.mode.Fixed? && c.duty == duty
    case Along(curve) => c.mode.Curve? && c.running == curve
  }

  function WriteTarget(p: Port, d: Driver, t: Target): Outcome {
    match t
    case FixedAt(duty) => ApplyFixed(p, d, duty)
    case Along(curve) => ApplyCurve(p, d, curve)
  }

  /** A write that completed and read back without a mismatch left the channel on its target. */
  lemma CleanReadbackMeansOnTarget(p: Port, d: Driver, t: Target)
    ensures var o := WriteTarget(p, d, t);
      && o.port.channel == p.channel
      && p.log < o.port.log
      && (o.Done? ==>
            && o.applied.readback.channel == p.channel
            && o.applied.writes == |o.port.log| - |p.log|
            && (!o.applied.readback.mismatch ==> OnTarget(o.port.cell, t)))
  {
    if t.Along? {
      StagingIsCounted(p, d, t.curve);
      if SeesCurveMode(p.cell, d) {
        StageCurveQuiet(p, d, t.curve);
      }
    }
  }

  /** Any target, written where the channel runs one of two curves and the target adds no third. */
  lemma TargetIsAtomic(p: Port, d: Driver, t: Target, was: TemperatureCurve, sent: TemperatureCurve)
    requires SeesCurveMode(p.cell, d) && p.cell.running in {was, sent}
    requires t.Along? ==> t.curve in {was, sent}
    ensures var o := WriteTarget(p, d, t);
      && o.port.channel == p.channel
      && o.port.cell.running in {was, sent}
      && AllWhole(p, o.port, was, sent)
  {
    match t
    case FixedAt(duty) =>
      WholeStep(p, p, d, SetDuty(duty), was, sent);
      WholeStep(p, Attempt(p, d, SetDuty(duty)).port, d, SetMode(PwmMode.Fixed), was, sent);
    case Along(curve) =>
      CurveWriteIsAtomic(p, d, curve);
  }

  /** A machine that can show a channel to be on a target: the mode reads, and a fixed duty reads
      and is one the driver stores unchanged. */
  predicate CanConfirm(d: Driver, t: Target) {
    d.modeReadable && (t.FixedAt? ==> d.dutyReadable && d.rounding[t.duty] == t.duty)
  }

  /** With nothing failing, a write completes, and reads back clean exactly on such a machine. */
  lemma NothingFailsTarget(p: Port, d: Driver, t: Target)
    requires p.faults == []
    ensures var o := WriteTarget(p, d, t);
      o.Done? && o.port.faults == [] && (!o.applied.readback.mismatch <==> CanConfirm(d, t))
  {
    if t.Along? {
      NothingFailsStaging(p, d, t.curve);
    }
  }

  lemma {:induction false} PointsKeepChannel(p: Port, d: Driver, curve: TemperatureCurve, index: nat)
    requires index <= CURVE_POINT_COUNT
    ensures var t := StagePoints(p, d, curve, index);
      && t.port.channel == p.channel && p.log <= t.port.log
      && (index < CURVE_POINT_COUNT ==> p.log < t.port.log)
      && (t.ok ==> |t.port.log| == |p.log| + CURVE_POINT_COUNT - index)
    decreases CURVE_POINT_COUNT - index
  {
    if index < CURVE_POINT_COUNT {
      var t := Attempt(p, d, SetPoint(index, curve[index]));
      if t.ok {
        PointsKeepChannel(t.port, d, curve, index + 1);
      }
    }
  }

  /** Staging attempts at least one write, on its own channel, and counts what it wrote. */
  lemma StagingIsCounted(p: Port, d: Driver, curve: TemperatureCurve)
    ensures var s := StageCurve(p, d, curve);
      && p.log < s.port.log
      && s.port.channel == p.channel
      && (s.ok ==> s.writes == |s.port.log| - |p.log|)
  {
    if ReadMode(p.cell, d) == Some(PwmMode.Curve) {
      var held := Attempt(p, d, SetDuty(TransitionDuty(p, d, curve)));
      if held.ok {
        var left := Attempt(held.port, d, SetMode(PwmMode.Fixed));
        if left.ok {
          PointsKeepChannel(left.port, d, curve, 0);
        }
      }
    } else {
      PointsKeepChannel(p, d, curve, 0);
    }
  }

  // ---------------------------------------------------------------- a restore can be trusted

  /** The channel behaves as the snapshot says it did. */
  ghost predicate Behaves(c: Cell, s: Snapshot) {
    && s.mode == Some(c.mode)
    && (c.mode.Fixed? ==> s.duty == Some(c.duty))
    && (c.mode.Curve? ==> s.curve == Some(c.running))
  }

  /** A restore that answers yes put the channel back, whatever failed on the way there. */
  lemma RestoreIsSound(p: Port, d: Driver, s: Snapshot)
    ensures var r := Restore(p, d, s);
      r.port.channel == p.channel && p.log <= r.port.log && (r.verified.Proven? ==> Behaves(r.port.cell, s))
  {
    if s.mode == Some(PwmMode.Curve) && s.curve.Some? {
      StagingIsCounted(p, d, s.curve.value);
      if d.modeReadable {
        StageCurveQuiet(p, d, s.curve.value);
      }
    }
  }

  /** A write below curve mode, other than the switch into it, extends a whole log. */
  lemma WholeStep(p: Port, q: Port, d: Driver, w: Write, was: TemperatureCurve, sent: TemperatureCurve)
    requires AllWhole(p, q, was, sent) && q.channel == p.channel && q.cell.running in {was, sent}
    requires !w.SetPoint? && (w == SetMode(PwmMode.Curve) ==> q.cell.points in {was, sent})
    ensures var t := Attempt(q, d, w);
      && AllWhole(p, t.port, was, sent)
      && t.port.channel == p.channel
      && t.port.cell.running in {was, sent}
      && t.port.cell.points == q.cell.points
  {
  }

  /** Every curve a rollback ever leaves running is whole: the one in force before it, or the one
      it was asked to put back. */
  lemma RestoreIsAtomic(p: Port, d: Driver, s: Snapshot, was: TemperatureCurve, sent: TemperatureCurve)
    requires SeesCurveMode(p.cell, d)
    requires p.cell.running in {was, sent}
    requires s.mode == Some(PwmMode.Curve) ==> s.curve.Some? && s.curve.value in {was, sent}
    ensures var r := Restore(p, d, s);
      && r.port.channel == p.channel
      && r.port.cell.running in {was, sent}
      && AllWhole(p, r.port, was, sent)
  {
    var q := p;
    if s.mode == Some(PwmMode.Curve) {
      StageCurveQuiet(p, d, s.curve.value);
      var staged := StageCurve(p, d, s.curve.value);
      if !staged.ok {
        return;
      }
      q := staged.port;
    }
    if s.duty.Some? && ReadDuty(q.cell, d) != s.duty {
      WholeStep(p, q, d, SetDuty(s.duty.value), was, sent);
      var dutied := Attempt(q, d, SetDuty(s.duty.value));
      if !dutied.ok {
        return;
      }
      q := dutied.port;
    }
    if s.mode.Some? && ReadMode(q.cell, d) != s.mode {
      WholeStep(p, q, d, SetMode(s.mode.value), was, sent);
    }
  }

  /** With nothing failing, a restore answers yes exactly when the snapshot carries the program,
      the mode can be read, and a fixed duty can be read and is one the driver can hold. */
  lemma RestoreIsComplete(p: Port, d: Driver, s: Snapshot)
    requires p.faults == []
    ensures Restore(p, d, s).verified.Proven? <==>
            && s.RestoresBehavior()
            && d.modeReadable
            && (s.mode == Some(PwmMode.Fixed) ==>
                  && d.dutyReadable
                  && (if ReadDuty(p.cell, d) == s.duty then p.cell.duty == s.duty.value
                      else d.rounding[s.duty.value] == s.duty.value))
  {
    if s.mode == Some(PwmMode.Curve) && s.curve.Some? {
      NothingFailsStaging(p, d, s.curve.value);
      if d.modeReadable {
        StageCurveQuiet(p, d, s.curve.value);
      }
    }
  }

  lemma {:induction false} NothingFailsPoints(p: Port, d: Driver, curve: TemperatureCurve, index: nat)
    requires index <= CURVE_POINT_COUNT && p.faults == []
    ensures var t := StagePoints(p, d, curve, index); t.ok && t.port.faults == []
    decreases CURVE_POINT_COUNT - index
  {
    if index < CURVE_POINT_COUNT {
      NothingFailsPoints(Attempt(p, d, SetPoint(index, curve[index])).port, d, curve, index + 1);
    }
  }

  lemma NothingFailsStaging(p: Port, d: Driver, curve: TemperatureCurve)
    requires p.faults == []
    ensures var s := StageCurve(p, d, curve); s.ok && s.port.faults == []
  {
    if ReadMode(p.cell, d) == Some(PwmMode.Curve) {
      var held := Attempt(p, d, SetDuty(TransitionDuty(p, d, curve)));
      NothingFailsPoints(Attempt(held.port, d, SetMode(PwmMode.Fixed)).port, d, curve, 0);
    } else {
      NothingFailsPoints(p, d, curve, 0);
    }
  }

  // ---------------------------------------------------------------- the pump floor

  lemma {:induction false} PointsAreFloored(
      p: Port, d: Driver, curve: TemperatureCurve, index: nat, exempt: Option<byte>)
    requires index <= CURVE_POINT_COUNT && AtLeast(curve, p.channel.MinDuty())
    ensures AllFloored(p, StagePoints(p, d, curve, index).port, exempt)
    decreases CURVE_POINT_COUNT - index
  {
    if index < CURVE_POINT_COUNT {
      var t := Attempt(p, d, SetPoint(index, curve[index]));
      if t.ok {
        PointsAreFloored(t.port, d, curve, index + 1, exempt);
      }
    }
  }

  /** The duty held across a rewrite is floored whatever the device reports. */
  lemma StagingIsFloored(p: Port, d: Driver, curve: TemperatureCurve, exempt: Option<byte>)
    requires AtLeast(curve, p.channel.MinDuty())
    ensures AllFloored(p, StageCurve(p, d, curve).port, exempt)
  {
    if ReadMode(p.cell, d) == Some(PwmMode.Curve) {
      var holding := TransitionDuty(p, d, curve);
      var held := Attempt(p, d, SetDuty(holding));
      FlooredStep(p, p, d, SetDuty(holding), exempt);
      if held.ok {
        FlooredStep(p, held.port, d, SetMode(PwmMode.Fixed), exempt);
        var left := Attempt(held.port, d, SetMode(PwmMode.Fixed));
        if left.ok {
          PointsAreFloored(left.port, d, curve, 0, exempt);
          FlooredJoins(p, left.port, StagePoints(left.port, d, curve, 0).port, exempt);
        }
      }
    } else {
      PointsAreFloored(p, d, curve, 0, exempt);
    }
  }

  lemma FlooredJoins(p: Port, q: Port, r: Port, exempt: Option<byte>)
    requires AllFloored(p, q, exempt) && AllFloored(q, r, exempt) && q.channel == p.channel
    ensures AllFloored(p, r, exempt)
  {
    forall k | |p.log| <= k < |r.log| ensures r.log[k].channel == p.channel && Floored(r.log[k], exempt) {
      if k < |q.log| { assert r.log[k] == q.log[k]; }
    }
  }

  ghost predicate TargetIsFloored(channel: Channel, t: Target) {
    match t
    case FixedAt(duty) => channel.MinDuty() <= duty
    case Along(curve) => AtLeast(curve, channel.MinDuty())
  }

  /** One more write keeps a log floored when the write itself is. */
  lemma FlooredStep(p: Port, q: Port, d: Driver, w: Write, exempt: Option<byte>)
    requires AllFloored(p, q, exempt) && q.channel == p.channel
    requires w.SetPoint? ==> p.channel.MinDuty() <= w.value
    requires w.SetDuty? ==> p.channel.MinDuty() <= w.duty || exempt == Some(w.duty)
    ensures AllFloored(p, Attempt(q, d, w).port, exempt)
  {
  }

  lemma TargetWritesAreFloored(p: Port, d: Driver, t: Target)
    requires TargetIsFloored(p.channel, t)
    ensures AllFloored(p, WriteTarget(p, d, t).port, None)
  {
    match t
    case FixedAt(duty) =>
      FlooredStep(p, p, d, SetDuty(duty), None);
      FlooredStep(p, Attempt(p, d, SetDuty(duty)).port, d, SetMode(PwmMode.Fixed), None);
    case Along(curve) =>
      StagingIsFloored(p, d, curve, None);
      StagingIsCounted(p, d, curve);
      FlooredStep(p, StageCurve(p, d, curve).port, d, SetMode(PwmMode.Curve), None);
  }

  lemma RestoreIsFloored(p: Port, d: Driver, s: Snapshot)
    requires s.curve.Some? ==> AtLeast(s.curve.value, p.channel.MinDuty())
    ensures AllFloored(p, Restore(p, d, s).port, s.duty)
  {
    var q := p;
    if s.mode == Some(PwmMode.Curve) && s.curve.Some? {
      StagingIsFloored(p, d, s.curve.value, s.duty);
      StagingIsCounted(p, d, s.curve.value);
      var staged := StageCurve(p, d, s.curve.value);
      if !staged.ok {
        return;
      }
      q := staged.port;
    }
    if s.duty.Some? && ReadDuty(q.cell, d) != s.duty {
      FlooredStep(p, q, d, SetDuty(s.duty.value), s.duty);
      var dutied := Attempt(q, d, SetDuty(s.duty.value));
      if !dutied.ok {
        return;
      }
      q := dutied.port;
    }
    if s.mode.Some? && ReadMode(q.cell, d) != s.mode {
      FlooredStep(p, q, d, SetMode(s.mode.value), s.duty);
    }
  }

  // ---------------------------------------------------------------- what is written, and in which order

  ghost predicate AtMost(curve: TemperatureCurve, duty: byte) {
    forall i :: 0 <= i < CURVE_POINT_COUNT ==> curve[i] <= duty
  }

  /** A channel is never in direct mode on a duty it was not asked for: the duty goes first. */
  lemma NeverDirectOnAnotherDuty(p: Port, d: Driver, duty: byte)
    requires !p.cell.mode.Fixed?
    ensures var q := ApplyFixed(p, d, duty).port;
      && p.log < q.log
      && forall k :: |p.log| <= k < |q.log| && q.log[k].after.mode.Fixed? ==> q.log[k].after.duty == d.rounding[duty]
  {
  }

  /** The duty held while a running curve is rewritten: what the device reports, so that nothing an operator
      could hear changes; failing that, what the curve commands at the reported temperature; failing that too,
      no less than the curve ever commands. In no case less than the floor. */
  lemma TheHeldDutyIsTheRunningOne(p: Port, d: Driver, curve: TemperatureCurve)
    requires ReadMode(p.cell, d) == Some(PwmMode.Curve)
    ensures var q := StageCurve(p, d, curve).port;
      && p.log < q.log && q.log[|p.log|].write.SetDuty?
      && var held, floor := q.log[|p.log|].write.duty, p.channel.MinDuty();
         && floor <= held
         && (d.dutyReadable && floor <= d.reported ==> held == d.reported)
         && (d.dutyReadable && d.reported < floor ==> held == floor)
         && (!d.dutyReadable && d.liquid.Some? ==> held == Max(DutyAt(curve, d.liquid.value), floor))
         && (!d.dutyReadable && d.liquid.None? && NonDecreasing(curve) ==> AtMost(curve, held))
         && (!d.dutyReadable ==> held == floor || held in curve)
  {
    StagingBegins(p, d, curve, TransitionDuty(p, d, curve));
  }

  /** The first write of a rewrite, with the duty it holds. */
  lemma StagingBegins(p: Port, d: Driver, curve: TemperatureCurve, held: byte)
    requires ReadMode(p.cell, d) == Some(PwmMode.Curve) && held == TransitionDuty(p, d, curve)
    ensures var q := StageCurve(p, d, curve).port;
      p.log < q.log && q.log[|p.log|].write == SetDuty(held)
  {
    var first := Attempt(p, d, SetDuty(held));
    if first.ok {
      var left := Attempt(first.port, d, SetMode(PwmMode.Fixed));
      if left.ok {
        PointsKeepChannel(left.port, d, curve, 0);
      }
    }
  }

  /** A restore with no curve to rewrite writes what differs and nothing else: the duty, then the mode. */
  lemma RestoreWritesOnlyWhatDiffers(p: Port, d: Driver, s: Snapshot)
    requires p.faults == [] && !(s.mode == Some(PwmMode.Curve) && s.curve.Some?)
    ensures var q := Restore(p, d, s).port;
      var duties := if s.duty.Some? && ReadDuty(p.cell, d) != s.duty then [SetDuty(s.duty.value)] else [];
      var modes := if s.mode.Some? && ReadMode(p.cell, d) != s.mode then [SetMode(s.mode.value)] else [];
      && |q.log| == |p.log| + |duties| + |modes|
      && forall k :: 0 <= k < |duties + modes| ==> q.log[|p.log| + k].write == (duties + modes)[k]
  {
  }

  /** The record fills in a curve the device could not hand back, and never overrides one it did. */
  lemma TheRecordOnlyFillsIn(s: Snapshot, recorded: Option<TemperatureCurve>)
    ensures var filled := s.WithCurve(recorded);
      && filled == s.(curve := filled.curve)
      && (s.curve.Some? ==> filled == s)
      && (s.curve.None? ==> filled.curve == recorded)
  {
  }
}
