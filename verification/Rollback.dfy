/**
 What a proven rollback leaves on record: each channel as it was found, dated by the call that put it back.
 Models `abort` in crates/daemon/src/cooling.rs from the side of the record.
 */
module Rollback {
  import opened Basics
  import opened Profiles
  import opened Control
  import opened Cooling

  /** The target a channel found like this is on, when it is on one at all. */
  function Found(c: Cell): Option<Target> {
    match c.mode
    case FullSpeed => None
    case Fixed => Some(FixedAt(c.duty))
    case Curve => Some(Along(c.running))
  }

  /** The record of one channel says what the channel was found doing, as of `wall`. */
  predicate Recorded(ex: Executor, c: Channel, was: Cell, wall: nat) {
    match Found(was)
    case None => c !in ex.committed
    case Some(t) => c in ex.committed && ex.committed[c] == Commit(t, wall)
  }

  /** One channel of a true record, rolled back: on record as it was found exactly when that was proven. */
  lemma OneIsRecorded(
      ex: Executor, b: Board, m: Machine, c: Channel, at: Executor, p: Port, wall: nat)
    requires Sound(ex, b) && p.channel == c
    ensures var s := SnapshotOf(ex, b, m, c);
      var next := Rerecord(at, s, Restore(p, m.Driver(c), s).verified, wall);
      && (if Restore(p, m.Driver(c), s).verified.Proven? then Recorded(next, c, b.Cell(c), wall)
          else c !in next.committed)
      && next.Target(c.Other()) == at.Target(c.Other())
      && (c.Other() in at.committed ==> next.committed[c.Other()] == at.committed[c.Other()])
  {
    var s := SnapshotOf(ex, b, m, c);
    RestoreIsSound(p, m.Driver(c), s);
  }

  /** The rollback of both channels, in the order it happens. */
  datatype Restores = Restores(pump: Restored, fan: Restored)

  function BothRestored(ex: Executor, b: Board, m: Machine, at: Board): Restores {
    var pump := Restore(at.Port(Pump), m.pump, SnapshotOf(ex, b, m, Pump));
    Restores(pump, Restore(at.With(Pump, pump.port).Port(Fan), m.fan, SnapshotOf(ex, b, m, Fan)))
  }

  /** After an aborted call, each channel is on record as it was found if its restore was proven, and off the
      record if not. */
  lemma AbortRecordsWhatItProved(ex: Executor, b: Board, m: Machine, at: Progress, wall: nat)
    requires Sound(ex, b)
    ensures var a := Abort(at, m, wall, Snapshots(ex, b, m));
      var r := BothRestored(ex, b, m, at.board);
      && (if r.pump.verified.Proven? then Recorded(a.executor, Pump, b.pump, wall) else Pump !in a.executor.committed)
      && (if r.fan.verified.Proven? then Recorded(a.executor, Fan, b.fan, wall) else Fan !in a.executor.committed)
      && (a.outcome.hardware.NotApplied? <==> r.pump.verified.Proven? && r.fan.verified.Proven?)
  {
    var snapshots := Snapshots(ex, b, m);
    var r := BothRestored(ex, b, m, at.board);
    var from := RolledBack(at.executor, at.board, true);
    assert snapshots[0] == SnapshotOf(ex, b, m, Pump) && snapshots[1] == SnapshotOf(ex, b, m, Fan);
    OneIsRecorded(ex, b, m, Pump, at.executor, at.board.Port(Pump), wall);
    var one := RolledBack(Rerecord(at.executor, snapshots[0], r.pump.verified, wall), at.board.With(Pump, r.pump.port),
                          r.pump.verified.Proven?);
    OneIsRecorded(ex, b, m, Fan, one.executor, one.board.Port(Fan), wall);
    var two := RolledBack(Rerecord(one.executor, snapshots[1], r.fan.verified, wall), one.board.With(Fan, r.fan.port),
                          one.restored && r.fan.verified.Proven?);
    assert RestoreFrom(two, m, wall, snapshots, 2) == two;
    assert RestoreFrom(one, m, wall, snapshots, 1) == two;
    assert RestoreFrom(from, m, wall, snapshots, 0) == two;
  }

  /** A transaction that is not applied leaves each channel on record at what it was found doing. */
  lemma TransactRecordsWhatWasFound(
      ex: Executor, b: Board, m: Machine, now: Instant, wall: nat, program: Program, c: Channel)
    requires Sound(ex, b) && !program.Onboard?
    ensures var a := Transact(ex, b, m, now, wall, program);
      a.outcome.hardware.NotApplied? ==> Recorded(a.executor, c, b.Cell(c), wall)
  {
    var w := WriteFrom(Progress(ex, b, 0, []), m, now, wall, program, Settled(ex, b, m, program), 0);
    if w.Broke? {
      AbortRecordsWhatItProved(ex, b, m, w.at, wall);
    }
  }

  /** A call that reached the device and answers NotApplied leaves each channel on record at what it was found
      doing, whether or not this process had put it there. */
  lemma NotAppliedRecordsWhatWasFound(
      ex: Executor, b: Board, m: Machine, bound: bool, now: Instant, wall: nat, program: Program, c: Channel)
    requires Sound(ex, b)
    ensures var a := Apply(ex, b, m, bound, now, wall, program);
      a.outcome.hardware.NotApplied? && b.log < a.board.log ==> Recorded(a.executor, c, b.Cell(c), wall)
  {
    if !program.Onboard? {
      TransactRecordsWhatWasFound(ex.(control := ex.control || bound), b, m, now, wall, program, c);
    }
  }

  /** A call that was refused, or found no device, leaves the record alone. */
  lemma UntouchedKeepsTheRecord(
      ex: Executor, b: Board, m: Machine, bound: bool, now: Instant, wall: nat, program: Program)
    ensures var a := Apply(ex, b, m, bound, now, wall, program);
      a.board.log == b.log ==> a.executor.committed == ex.committed
  {
    if !program.Onboard? && (ex.control || bound) {
      TransactIsStamped(ex.(control := true), b, m, now, wall, program);
    }
  }

  /** A call that answers NotApplied loses nothing from the record: every target on it before is on it after. */
  lemma NotAppliedKeepsTheRecord(
      ex: Executor, b: Board, m: Machine, bound: bool, now: Instant, wall: nat, program: Program, c: Channel)
    requires Sound(ex, b) && ex.Target(c).Some?
    ensures var a := Apply(ex, b, m, bound, now, wall, program);
      a.outcome.hardware.NotApplied? ==> a.executor.Target(c) == ex.Target(c)
  {
    TouchingIsSpaced(ex, b, m, bound, now, wall, program);
    UntouchedKeepsTheRecord(ex, b, m, bound, now, wall, program);
    NotAppliedRecordsWhatWasFound(ex, b, m, bound, now, wall, program, c);
    FoundIsRecorded(ex, b, Apply(ex, b, m, bound, now, wall, program), wall, c);
  }

  lemma NotAppliedLosesNothing(
      ex: Executor, b: Board, m: Machine, bound: bool, now: Instant, wall: nat, program: Program)
    requires Sound(ex, b)
    ensures var a := Apply(ex, b, m, bound, now, wall, program);
      a.outcome.hardware.NotApplied? ==>
        forall c: Channel :: ex.Target(c).Some? ==> a.executor.Target(c) == ex.Target(c)
  {
    forall c: Channel | ex.Target(c).Some?
      ensures var a := Apply(ex, b, m, bound, now, wall, program);
        a.outcome.hardware.NotApplied? ==> a.executor.Target(c) == ex.Target(c)
    {
      NotAppliedKeepsTheRecord(ex, b, m, bound, now, wall, program, c);
    }
  }

  /** What a true record said of a channel is what the channel was found doing. */
  lemma FoundIsRecorded(ex: Executor, b: Board, a: Applying, wall: nat, c: Channel)
    requires Sound(ex, b) && ex.Target(c).Some?
    requires a.board.log == b.log ==> a.executor.committed == ex.committed
    requires a.outcome.hardware.NotApplied? && a.board.log != b.log ==> Recorded(a.executor, c, b.Cell(c), wall)
    ensures a.outcome.hardware.NotApplied? ==> a.executor.Target(c) == ex.Target(c)
  {
    assert OnTarget(b.Cell(c), ex.committed[c].target);
  }

  /** So the program that was running before a call that was not applied is still answered for free: no write,
      no change of stamp, at any moment, even inside the cadence floor the failed call started. */
  lemma TheOldProgramIsStillFree(
      ex: Executor, b: Board, m: Machine, now: Instant, wall: nat, failed: Program, before: Program,
      later: Machine, soon: Instant, wall': nat)
    requires Sound(ex, b) && ex.control && !before.Onboard? && CommittedProgram(ex) == Some(before)
    requires forall c: Channel ::
      later.Driver(c).modeReadable && (before.Fixed? ==> later.Driver(c).dutyReadable)
    ensures var a := Apply(ex, b, m, true, now, wall, failed);
      var again := Apply(a.executor, a.board, later, true, soon, wall', before);
      a.outcome.hardware.NotApplied? ==>
        && again.executor == a.executor && again.board == a.board
        && again.outcome.hardware.Confirmed? && again.outcome.writes == 0 && again.outcome.deduplicated
  {
    var a := Apply(ex, b, m, true, now, wall, failed);
    if a.outcome.hardware.NotApplied? {
      NotAppliedKeepsTheRecord(ex, b, m, true, now, wall, failed, Pump);
      NotAppliedKeepsTheRecord(ex, b, m, true, now, wall, failed, Fan);
      ApplyIsAllOrNothing(ex, b, m, true, now, wall, failed);
      ControlIsKept(ex, b, m, now, wall, failed);
      assert CommittedProgram(a.executor) == Some(before);
      RepeatIsFree(a.executor, a.board, later, true, soon, wall', before);
    }
  }

  lemma ControlIsKept(ex: Executor, b: Board, m: Machine, now: Instant, wall: nat, program: Program)
    requires ex.control
    ensures Apply(ex, b, m, true, now, wall, program).executor.control
  {
    assert ex.(control := true) == ex;
    if !program.Onboard? {
      var start, settled := Progress(ex, b, 0, []), Settled(ex, b, m, program);
      WritingIsStamped(start, m, now, wall, program, settled, 0);
      var w := WriteFrom(start, m, now, wall, program, settled, 0);
      if w.Broke? {
        RollbackKeepsStamp(RolledBack(w.at.executor, w.at.board, true), m, wall, Snapshots(ex, b, m), 0);
      }
    }
  }

  /** With nothing failing after the write that broke it, an aborted call is NotApplied exactly when each channel
      can be shown to be back. */
  lemma AbortIsNotAppliedExactlyWhen(ex: Executor, b: Board, m: Machine, at: Progress, wall: nat)
    requires Sound(ex, b) && at.board.faults == []
    ensures var a := Abort(at, m, wall, Snapshots(ex, b, m));
      var both := Restorable(ex, b, m, at.board.pump, Pump) && Restorable(ex, b, m, at.board.fan, Fan);
      a.outcome.hardware.NotApplied? <==> both
  {
    AbortRecordsWhatItProved(ex, b, m, at, wall);
    var s := SnapshotOf(ex, b, m, Pump);
    var pump := Restore(at.board.Port(Pump), m.pump, s);
    RestoreIsComplete(at.board.Port(Pump), m.pump, s);
    NothingFailsRestoring(at.board.Port(Pump), m.pump, s);
    var between := at.board.With(Pump, pump.port);
    RestoreIsComplete(between.Port(Fan), m.fan, SnapshotOf(ex, b, m, Fan));
  }

  /** The channel's mode reads; a fixed duty reads, and it is there or the driver stores it unchanged; a curve
      is on record. */
  predicate Restorable(ex: Executor, b: Board, m: Machine, left: Cell, c: Channel) {
    var was, d := b.Cell(c), m.Driver(c);
    && d.modeReadable
    && (was.mode.Fixed? ==>
          && d.dutyReadable
          && (if ReadDuty(left, d) == Some(was.duty) then left.duty == was.duty else d.rounding[was.duty] == was.duty))
    && (was.mode.Curve? ==> ex.Curve(c).Some?)
  }

  lemma NothingFailsRestoring(p: Port, d: Driver, s: Snapshot)
    requires p.faults == []
    ensures Restore(p, d, s).port.faults == []
  {
    if s.mode == Some(PwmMode.Curve) && s.curve.Some? {
      NothingFailsStaging(p, d, s.curve.value);
    }
  }

  /** A concrete one: both channels at 128, a call for 200, the mode after the first duty refused. The answer is
      NotApplied, the duty is written back, and 128 is still the program on record. */
  lemma ARefusedModeIsRolledBack(ex: Executor, b: Board, m: Machine, now: Instant, wall: nat)
    requires ex.control && ex.lastWrite.None?
    requires CommittedProgram(ex) == Some(Program.Fixed(128, 128)) && Sound(ex, b) && b.faults == [Lands, FailsLost]
    requires forall c: Channel ::
      m.Driver(c).modeReadable && m.Driver(c).dutyReadable
      && m.Driver(c).rounding[128] == 128 && m.Driver(c).rounding[200] == 200
    ensures var a := Apply(ex, b, m, true, now, wall, Program.Fixed(200, 200));
      && a.outcome.hardware.NotApplied? && b.log < a.board.log
      && CommittedProgram(a.executor) == Some(Program.Fixed(128, 128))
  {
    var program := Program.Fixed(200, 200);
    var start, settled := Progress(ex, b, 0, []), Settled(ex, b, m, program);
    var first := Attempt(b.Port(Pump), m.pump, SetDuty(200));
    var second := Attempt(first.port, m.pump, SetMode(PwmMode.Fixed));
    assert ex.(control := true) == ex;
    assert ORDER[0] == Pump && settled[0].None?;
    assert m.Driver(Pump) == m.pump && m.Driver(Fan) == m.fan;
    assert first.ok && first.port.faults == [FailsLost] && !second.ok && second.port.faults == [];
    var one := WriteOne(start, m, now, wall, Pump, FixedAt(200), None);
    assert one.Broke? && one.at.board == b.With(Pump, second.port);
    assert WriteFrom(start, m, now, wall, program, settled, 0) == one;
    assert OnTarget(b.pump, ex.committed[Pump].target) && OnTarget(b.fan, ex.committed[Fan].target);
    AbortIsNotAppliedExactlyWhen(ex, b, m, one.at, wall);
    AbortRecordsWhatItProved(ex, b, m, one.at, wall);
    TransactIsStamped(ex, b, m, now, wall, program);
  }
}
