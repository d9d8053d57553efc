/**
 The cooling path as the objects it is made of: the sysfs directory, the writer over it, and the
 executor that owns both. Each method is tied to the function in `Control` or `Cooling` that says
 what it does. Models crates/hardware-linux/src/control.rs and crates/daemon/src/cooling.rs.
 */
module CoolingWriter {
  import opened Basics
  import opened Profiles
  import opened Control
  import opened Cooling
  import CoolingRuns
  import Rollback

  /** One bound `kraken2023` directory. `machine` is what its attributes answer to a read. */
  class KrakenHwmon {
    var pump: Cell
    var fan: Cell
    var machine: Machine
    var faults: seq<Fault>
    var log: seq<Entry>

    constructor (board: Board, machine: Machine)
      ensures this.machine == machine && Board() == board
    {
      this.pump, this.fan, this.machine := board.pump, board.fan, machine;
      this.faults, this.log := board.faults, board.log;
    }

    function Board(): Board
      reads this
    {
      Cooling.Board(pump, fan, faults, log)
    }

    function Mode(c: Channel): Option<PwmMode>
      reads this
    {
      ReadMode(Board().Cell(c), machine.Driver(c))
    }

    function Duty(c: Channel): Option<byte>
      reads this
    {
      ReadDuty(Board().Cell(c), machine.Driver(c))
    }

    /** One attribute write. */
    method Write(c: Channel, w: Write) returns (ok: bool)
      modifies this
      ensures machine == old(machine)
      ensures var t := Attempt(old(Board()).Port(c), machine.Driver(c), w);
        ok == t.ok && Only(old(Board()), Board(), c, t.port)
    {
      var before := Board().Cell(c);
      var fault := if faults == [] then Lands else faults[0];
      var after := before;
      if !fault.FailsLost? {
        after := Land(before, machine.Driver(c), w);
      }
      match c {
        case Pump => pump := after;
        case Fan => fan := after;
      }
      faults := if faults == [] then [] else faults[1..];
      log := log + [Entry(c, w, before, after)];
      ok := fault.Lands?;
    }
  }

  /** Channel `c` is left as `p` says and the other channel is untouched. */
  predicate Only(before: Board, after: Board, c: Channel, p: Port) {
    after.Port(c) == p && after.Cell(c.Other()) == before.Cell(c.Other())
  }

  /** A method over the directory did what the function of the same step says. */
  predicate Did(before: Board, after: Board, c: Channel, o: Outcome, r: Option<Applied>) {
    && Only(before, after, c, o.port)
    && (match o
        case Done(_, applied) => r == Some(applied)
        case Failed(_) => r == None)
  }

  /** The only code that writes to the thermal path. A refused write is `None`. */
  class CoolingControl {
    const hwmon: KrakenHwmon

    constructor (hwmon: KrakenHwmon)
      ensures this.hwmon == hwmon
    {
      this.hwmon := hwmon;
    }

    function Snapshot(c: Channel): Snapshot
      reads hwmon
    {
      TakeSnapshot(hwmon.Board().Port(c), hwmon.machine.Driver(c))
    }

    function ReadBack(c: Channel): Readback
      reads hwmon
    {
      Readback(c, hwmon.Mode(c), hwmon.Duty(c), false)
    }

    method ApplyFixed(c: Channel, duty: byte) returns (r: Option<Applied>)
      modifies hwmon
      ensures hwmon.machine == old(hwmon.machine)
      ensures Did(old(hwmon.Board()), hwmon.Board(), c,
                  Control.ApplyFixed(old(hwmon.Board()).Port(c), old(hwmon.machine).Driver(c), duty), r)
    {
      var ok := hwmon.Write(c, SetDuty(duty));
      if !ok {
        return None;
      }
      ok := hwmon.Write(c, SetMode(PwmMode.Fixed));
      if !ok {
        return None;
      }
      var back := ReadBack(c);
      var mismatch := false;
      if back.mode != Some(PwmMode.Fixed) {
        mismatch := true;
      }
      if back.duty != Some(duty) {
        mismatch := true;
      }
      return Some(Applied(back.(mismatch := mismatch), 2));
    }

    method StagePoints(c: Channel, curve: TemperatureCurve) returns (ok: bool)
      modifies hwmon
      ensures var t := Control.StagePoints(old(hwmon.Board()).Port(c), old(hwmon.machine).Driver(c), curve, 0);
        && hwmon.machine == old(hwmon.machine)
        && Only(old(hwmon.Board()), hwmon.Board(), c, t.port)
        && ok == t.ok
    {
      ghost var p, d := hwmon.Board().Port(c), hwmon.machine.Driver(c);
      for index := 0 to CURVE_POINT_COUNT
        invariant hwmon.machine == old(hwmon.machine)
        invariant Control.StagePoints(p, d, curve, 0) == Control.StagePoints(hwmon.Board().Port(c), d, curve, index)
        invariant hwmon.Board().Cell(c.Other()) == old(hwmon.Board()).Cell(c.Other())
      {
        ok := hwmon.Write(c, SetPoint(index, curve[index]));
        if !ok {
          return;
        }
      }
      ok := true;
    }

    /** Leave curve mode on the duty to hold meanwhile. */
    method LeaveCurveMode(c: Channel, holding: byte) returns (ok: bool)
      modifies hwmon
      ensures var p, d := old(hwmon.Board()).Port(c), old(hwmon.machine).Driver(c);
        var held := Attempt(p, d, SetDuty(holding));
        var left := if held.ok then Attempt(held.port, d, SetMode(PwmMode.Fixed)) else held;
        && hwmon.machine == old(hwmon.machine)
        && Only(old(hwmon.Board()), hwmon.Board(), c, left.port)
        && ok == left.ok
    {
      ok := hwmon.Write(c, SetDuty(holding));
      if ok {
        ok := hwmon.Write(c, SetMode(PwmMode.Fixed));
      }
    }

    /** Fill the driver's array, leaving curve mode first when the channel reads as being in it. */
    method StageCurve(c: Channel, curve: TemperatureCurve) returns (r: Option<nat>)
      modifies hwmon
      ensures var s := Control.StageCurve(old(hwmon.Board()).Port(c), old(hwmon.machine).Driver(c), curve);
        && hwmon.machine == old(hwmon.machine)
        && Only(old(hwmon.Board()), hwmon.Board(), c, s.port)
        && r == if s.ok then Some(s.writes) else None
    {
      var writes: nat := 0;
      ghost var before, d := hwmon.Board(), hwmon.machine.Driver(c);
      ghost var s := Control.StageCurve(before.Port(c), d, curve);
      if hwmon.Mode(c) == Some(PwmMode.Curve) {
        var holding := TransitionDuty(hwmon.Board().Port(c), hwmon.machine.Driver(c), curve);
        var left := LeaveCurveMode(c, holding);
        if !left {
          return None;
        }
        writes := writes + 2;
      }
      ghost var filling := Control.StagePoints(hwmon.Board().Port(c), d, curve, 0);
      assert s == Staged(filling.ok, filling.port, writes + CURVE_POINT_COUNT);
      var filled := StagePoints(c, curve);
      return if filled then Some(writes + CURVE_POINT_COUNT) else None;
    }

    /** Put one channel on a curve. */
    method ApplyCurve(c: Channel, curve: TemperatureCurve) returns (r: Option<Applied>)
      modifies hwmon
      ensures hwmon.machine == old(hwmon.machine)
      ensures Did(old(hwmon.Board()), hwmon.Board(), c,
                  Control.ApplyCurve(old(hwmon.Board()).Port(c), old(hwmon.machine).Driver(c), curve), r)
    {
      var writes := StageCurve(c, curve);
      if writes.None? {
        return None;
      }
      var ok := hwmon.Write(c, SetMode(PwmMode.Curve));
      if !ok {
        return None;
      }
      var back := ReadBack(c);
      return Some(Applied(back.(mismatch := back.mode != Some(PwmMode.Curve)), writes.value + 1));
    }

    /** Put a channel back to a captured state, writing only what differs. */
    method Restore(s: Snapshot) returns (r: Verified)
      modifies hwmon
      ensures var o := Control.Restore(old(hwmon.Board()).Port(s.channel), old(hwmon.machine).Driver(s.channel), s);
        && hwmon.machine == old(hwmon.machine)
        && Only(old(hwmon.Board()), hwmon.Board(), s.channel, o.port)
        && r == o.verified
      ensures r.Proven? ==> Behaves(hwmon.Board().Cell(s.channel), s)
    {
      var c := s.channel;
      RestoreIsSound(hwmon.Board().Port(c), hwmon.machine.Driver(c), s);
      if s.mode == Some(PwmMode.Curve) && s.curve.Some? {
        var staged := StageCurve(c, s.curve.value);
        if staged.None? {
          return Errored;
        }
      }
      if s.duty.Some? && hwmon.Duty(c) != s.duty {
        var ok := hwmon.Write(c, SetDuty(s.duty.value));
        if !ok {
          return Errored;
        }
      }
      if s.mode.Some? && hwmon.Mode(c) != s.mode {
        var ok := hwmon.Write(c, SetMode(s.mode.value));
        if !ok {
          return Errored;
        }
      }
      var confirmed := s.RestoresBehavior();
      if s.mode.Some? {
        confirmed := confirmed && hwmon.Mode(c) == s.mode;
      }
      if s.mode == Some(PwmMode.Fixed) && s.duty.Some? {
        confirmed := confirmed && hwmon.Duty(c) == s.duty;
      }
      return if confirmed then Proven else Unproven;
    }
  }

  /** The sole writer of the thermal path. */
  class CoolingExecutor {
    const hwmon: KrakenHwmon
    var control: CoolingControl?
    var committed: map<Channel, Commit>
    var lastWrite: Option<Instant>

    /** The executor as a value. */
    function Value(): Executor
      reads this
    {
      Executor(control != null, committed, lastWrite)
    }

    ghost predicate Valid()
      reads this
    {
      control != null ==> control.hwmon == hwmon
    }

    constructor Open(hwmon: KrakenHwmon, bound: bool)
      ensures Valid() && this.hwmon == hwmon
      ensures Value() == Executor(bound, map[], None)
    {
      this.hwmon := hwmon;
      this.committed, this.lastWrite := map[], None;
      this.control := null;
      new;
      if bound {
        control := new CoolingControl(hwmon);
      }
    }

    /** Forget what was committed, after the device went away. */
    method Forget()
      requires Valid()
      modifies this
      ensures Valid() && Value() == CoolingRuns.Forget(old(Value()))
    {
      committed := map[];
      control := null;
    }

    method Resolve(bound: bool)
      requires Valid()
      modifies this`control
      ensures Valid() && Value() == old(Value()).(control := old(Value()).control || bound)
    {
      if control == null && bound {
        control := new CoolingControl(hwmon);
      }
    }

    method Write(c: Channel, t: Target) returns (r: Option<Applied>)
      requires Valid() && control != null
      modifies hwmon
      ensures hwmon.machine == old(hwmon.machine)
      ensures Did(old(hwmon.Board()), hwmon.Board(), c,
                  WriteTarget(old(hwmon.Board()).Port(c), old(hwmon.machine).Driver(c), t), r)
    {
      match t {
        case FixedAt(duty) => r := control.ApplyFixed(c, duty);
        case Along(curve) => r := control.ApplyCurve(c, curve);
      }
    }

    /** Undo a failed transaction and report what could be proven afterwards. */
    method Abort(wall: nat, snapshots: seq<Snapshot>, writes: nat, readback: seq<Readback>)
      returns (outcome: ApplyOutcome)
      requires Valid() && control != null
      modifies this`committed, hwmon
      ensures Valid() && hwmon.machine == old(hwmon.machine)
      ensures var a := Cooling.Abort(Progress(old(Value()), old(hwmon.Board()), writes, readback),
                                     old(hwmon.machine), wall, snapshots);
        Value() == a.executor && hwmon.Board() == a.board && outcome == a.outcome
    {
      var restored := true;
      ghost var start := RolledBack(Value(), hwmon.Board(), true);
      for i := 0 to |snapshots|
        invariant hwmon.machine == old(hwmon.machine)
        invariant RestoreFrom(start, hwmon.machine, wall, snapshots, 0)
               == RestoreFrom(RolledBack(Value(), hwmon.Board(), restored), hwmon.machine, wall, snapshots, i)
      {
        var s := snapshots[i];
        ghost var at := hwmon.Board();
        var verified := control.Restore(s);
        assert hwmon.Board() == at.With(s.channel, hwmon.Board().Port(s.channel));
        if verified.Proven? && s.mode == Some(PwmMode.Curve) && s.curve.Some? {
          committed := committed[s.channel := Commit(Along(s.curve.value), wall)];
        } else if verified.Proven? && s.mode == Some(PwmMode.Fixed) && s.duty.Some? {
          committed := committed[s.channel := Commit(FixedAt(s.duty.value), wall)];
        } else {
          if !verified.Proven? {
            restored := false;
          }
          committed := committed - {s.channel};
        }
      }
      outcome := ApplyOutcome(if restored then NotApplied else Uncertain, writes, false, readback);
    }

    /** Turn the readbacks of a completed transaction into its outcome. */
    method Settle(writes: nat, readback: seq<Readback>) returns (outcome: ApplyOutcome)
      requires Valid()
      modifies this`committed
      ensures Valid()
      ensures var a := Cooling.Settle(Progress(old(Value()), hwmon.Board(), writes, readback));
        Value() == a.executor && outcome == a.outcome
    {
      var hardware := Confirmed;
      if Mismatched(readback) {
        for i := 0 to 2
          invariant committed == if i == 0 then old(committed) else if i == 1 then old(committed) - {Pump}
                                 else old(committed) - {Pump} - {Fan}
        {
          committed := committed - {ORDER[i]};
        }
        hardware := Uncertain;
      }
      outcome := ApplyOutcome(hardware, writes, writes == 0, readback);
    }

    /** Apply one program, writing only what is not already in place. Whatever fails on the way,
        a record that was true stays true and the outcome says what the device does. */
    method Apply(bound: bool, now: Instant, wall: nat, program: Program) returns (outcome: ApplyOutcome)
      requires Valid()
      modifies this, hwmon
      ensures Valid() && hwmon.machine == old(hwmon.machine)
      ensures var a := Cooling.Apply(old(Value()), old(hwmon.Board()), old(hwmon.machine), bound, now, wall, program);
        Value() == a.executor && hwmon.Board() == a.board && outcome == a.outcome
      ensures old(Sound(Value(), hwmon.Board())) ==>
        Honest(old(hwmon.Board()), program, Applying(Value(), hwmon.Board(), outcome))
      ensures old(Sound(Value(), hwmon.Board())) && outcome.hardware.NotApplied? ==>
        forall c: Channel :: old(Value()).Target(c).Some? ==> Value().Target(c) == old(Value()).Target(c)
    {
      ghost var ex, b := Value(), hwmon.Board();
      if Sound(ex, b) {
        ApplyIsAllOrNothing(ex, b, hwmon.machine, bound, now, wall, program);
        Rollback.NotAppliedLosesNothing(ex, b, hwmon.machine, bound, now, wall, program);
      }
      if program.Onboard? {
        return Untouched(Hardware.Onboard);
      }
      Resolve(bound);
      if control == null {
        return Untouched(NotApplied);
      }
      var snapshots := Cooling.Snapshots(Value(), hwmon.Board(), hwmon.machine);
      var settled := Cooling.Settled(Value(), hwmon.Board(), hwmon.machine, program);
      if !AllSettled(settled) && TooSoon(Value(), now) {
        return Untouched(NotApplied);
      }
      outcome := Transact(now, wall, program, snapshots, settled);
    }

    /** The body of the writing loop: take the readback of a settled channel, or write it. */
    method WriteOne(now: Instant, wall: nat, c: Channel, t: Target, settled: Option<Readback>,
                    soFar: nat, behind: seq<Readback>) returns (ok: bool, writes: nat, readback: seq<Readback>)
      requires Valid() && control != null
      modifies this`committed, this`lastWrite, hwmon
      ensures hwmon.machine == old(hwmon.machine)
      ensures var w := Cooling.WriteOne(Progress(old(Value()), old(hwmon.Board()), soFar, behind),
                                        old(hwmon.machine), now, wall, c, t, settled);
        ok == w.Finished? && w.at == Progress(Value(), hwmon.Board(), writes, readback)
    {
      if settled.Some? {
        return true, soFar, behind + [settled.value];
      }
      lastWrite := Some(now);
      var applied := Write(c, t);
      assert hwmon.Board() == old(hwmon.Board()).With(c, hwmon.Board().Port(c));
      if applied.None? {
        return false, soFar, behind;
      }
      committed := committed[c := Commit(t, wall)];
      return true, soFar + applied.value.writes, behind + [applied.value.readback];
    }

    method Transact(now: Instant, wall: nat, program: Program,
                    snapshots: seq<Snapshot>, settled: seq<Option<Readback>>) returns (outcome: ApplyOutcome)
      requires Valid() && control != null && !program.Onboard?
      requires snapshots == Cooling.Snapshots(Value(), hwmon.Board(), hwmon.machine)
      requires settled == Cooling.Settled(Value(), hwmon.Board(), hwmon.machine, program)
      modifies this, hwmon
      ensures Valid() && hwmon.machine == old(hwmon.machine)
      ensures var a := Cooling.Transact(old(Value()), old(hwmon.Board()), old(hwmon.machine), now, wall, program);
        Value() == a.executor && hwmon.Board() == a.board && outcome == a.outcome
    {
      var readback: seq<Readback> := [];
      var writes: nat := 0;
      ghost var start := Progress(Value(), hwmon.Board(), 0, []);
      for i := 0 to 2
        invariant Valid() && control == old(control) && control != null && hwmon.machine == old(hwmon.machine)
        invariant WriteFrom(start, hwmon.machine, now, wall, program, settled, 0)
               == WriteFrom(Progress(Value(), hwmon.Board(), writes, readback),
                            hwmon.machine, now, wall, program, settled, i)
      {
        var ok;
        ok, writes, readback :=
          WriteOne(now, wall, ORDER[i], TargetFor(program, ORDER[i]), settled[i], writes, readback);
        if !ok {
          outcome := Abort(wall, snapshots, writes, readback);
          return;
        }
      }
      outcome := Settle(writes, readback);
    }

    /** Check every committed curve against the duty the device reports. */
    method VerifyCurves(kraken: CoolingRuns.Kraken, wall: nat) returns (diverged: seq<CoolingRuns.CurveDivergence>)
      requires Valid()
      modifies this`committed
      ensures Valid()
      ensures Value() == CoolingRuns.VerifyCurves(old(Value()), kraken, wall)
      ensures diverged == CoolingRuns.Flags(old(Value()), kraken, wall)
    {
      if kraken.liquid.None? {
        return [];
      }
      diverged := [];
      for i := 0 to 2
        invariant committed == old(committed)
        invariant diverged ==
          (if i > 0 && CoolingRuns.Flag(Value(), kraken, wall, Pump).Some?
           then [CoolingRuns.Flag(Value(), kraken, wall, Pump).value] else [])
          + (if i > 1 && CoolingRuns.Flag(Value(), kraken, wall, Fan).Some?
             then [CoolingRuns.Flag(Value(), kraken, wall, Fan).value] else [])
      {
        var c := ORDER[i];
        if c !in committed || committed[c].target.FixedAt? {
          continue;
        }
        var curve := committed[c].target.curve;
        if wall < committed[c].atUnixMs + CURVE_SETTLE_MS {
          continue;
        }
        var entry := kraken.Sample(c);
        if entry.mode != Some(PwmMode.Curve) {
          continue;
        }
        if entry.duty.None? {
          continue;
        }
        if CoolingRuns.AcceptsDuty(curve, kraken.liquid.value, entry.duty.value) {
          continue;
        }
        diverged := diverged + [CoolingRuns.CurveDivergence(
          c, kraken.liquid.value, DutyAt(curve, kraken.liquid.value), entry.duty.value)];
      }
      for k := 0 to |diverged|
        invariant committed == if k == 0 then old(committed)
                               else if k == 1 then old(committed) - {diverged[0].channel}
                               else old(committed) - {diverged[0].channel} - {diverged[1].channel}
      {
        committed := committed - {diverged[k].channel};
      }
    }
  }
}
