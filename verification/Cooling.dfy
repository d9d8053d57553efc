/**
 The cooling executor on values: what one `apply` does to its record and to both channels, and
 what that means over whole runs. Models crates/daemon/src/cooling.rs; `CoolingWriter.dfy` holds
 the executor as the class it is.
 */
module Cooling {
  import opened Basics
  import opened Profiles
  import opened Control

  const MIN_PROGRAM_INTERVAL: nat := MIN_PROGRAM_INTERVAL_MS * NANOS_PER_MILLI
  const CURVE_SETTLE_MS: nat := 5000
  const CURVE_DUTY_TOLERANCE: nat := 3

  /** A committed target, and the wall-clock millisecond it was committed at. */
  datatype Commit = Commit(target: Target, atUnixMs: nat)

  datatype Executor = Executor(control: bool, committed: map<Channel, Commit>, lastWrite: Option<Instant>) {
    function Target(c: Channel): Option<Target> {
      if c in committed then Some(committed[c].target) else None
    }

    function Curve(c: Channel): Option<TemperatureCurve> {
      if c in committed && committed[c].target.Along? then Some(committed[c].target.curve) else None
    }

    function Committing(c: Channel, t: Target, wall: nat): Executor {
      this.(committed := committed[c := Commit(t, wall)])
    }

    function Uncommitting(c: Channel): Executor {
      this.(committed := committed - {c})
    }
  }

  /** Both channels of the device, sharing one log of attempted writes and one list of faults. */
  datatype Board = Board(pump: Cell, fan: Cell, faults: seq<Fault>, log: seq<Entry>) {
    function Cell(c: Channel): Cell {
      match c
      case Pump => pump
      case Fan => fan
    }

    function Port(c: Channel): Port {
      Control.Port(c, Cell(c), faults, log)
    }

    function With(c: Channel, p: Port): Board {
      match c
      case Pump => Board(p.cell, fan, p.faults, p.log)
      case Fan => Board(pump, p.cell, p.faults, p.log)
    }
  }

  /** What the machine answers during one transaction, per channel. */
  datatype Machine = Machine(pump: Driver, fan: Driver) {
    function Driver(c: Channel): Driver {
      match c
      case Pump => pump
      case Fan => fan
    }
  }

  datatype Hardware = Onboard | Confirmed | NotApplied | Uncertain

  datatype ApplyOutcome = ApplyOutcome(
    hardware: Hardware, writes: nat, deduplicated: bool, readback: seq<Readback>)

  function Untouched(h: Hardware): ApplyOutcome {
    ApplyOutcome(h, 0, false, [])
  }

  /** The order every loop of the executor visits the channels in. */
  const ORDER: seq<Channel> := [Pump, Fan]

  function TargetFor(program: Program, c: Channel): Target
    requires !program.Onboard?
  {
    match program
    case Fixed(pump, fan) => FixedAt(if c.Pump? then pump else fan)
    case Curve(pump, fan) => Along(if c.Pump? then pump else fan)
  }

  function CommittedProgram(ex: Executor): Option<Program> {
    match (ex.Target(Pump), ex.Target(Fan))
    case (Some(FixedAt(pump)), Some(FixedAt(fan))) => Some(Program.Fixed(pump, fan))
    case (Some(Along(pump)), Some(Along(fan))) => Some(Program.Curve(pump, fan))
    case _ => None
  }

  function SnapshotOf(ex: Executor, b: Board, m: Machine, c: Channel): Snapshot {
    TakeSnapshot(b.Port(c), m.Driver(c)).WithCurve(ex.Curve(c))
  }

  /** The readback of a channel that already holds its target, by the record and by the device. */
  function AlreadyApplied(ex: Executor, b: Board, m: Machine, c: Channel, t: Target): Option<Readback> {
    var mode := ReadMode(b.Cell(c), m.Driver(c));
    var duty := ReadDuty(b.Cell(c), m.Driver(c));
    if ex.Target(c) != Some(t) then None
    else if mode != Some(t.Mode()) then None
    else if t.FixedAt? && duty != Some(t.duty) then None
    else Some(Readback(c, mode, duty, false))
  }

  function Settled(ex: Executor, b: Board, m: Machine, program: Program): seq<Option<Readback>>
    requires !program.Onboard?
  {
    seq(2, i requires 0 <= i < 2 => AlreadyApplied(ex, b, m, ORDER[i], TargetFor(program, ORDER[i])))
  }

  predicate TooSoon(ex: Executor, now: Instant) {
    ex.lastWrite.Some? && SaturatingSince(now, ex.lastWrite.value) < MIN_PROGRAM_INTERVAL
  }

  /** A transaction part of the way through its channels. */
  datatype Progress = Progress(executor: Executor, board: Board, writes: nat, readback: seq<Readback>)

  datatype Written = Finished(at: Progress) | Broke(at: Progress)

  /** What the writing loop does with one channel. */
  function WriteOne(
      at: Progress, m: Machine, now: Instant, wall: nat, c: Channel, t: Target, settled: Option<Readback>): Written
  {
    if settled.Some? then Finished(at.(readback := at.readback + [settled.value])) else
    var stamped := at.executor.(lastWrite := Some(now));
    match WriteTarget(at.board.Port(c), m.Driver(c), t)
    case Failed(p) => Broke(at.(executor := stamped, board := at.board.With(c, p)))
    case Done(p, applied) =>
      Finished(Progress(stamped.Committing(c, t, wall), at.board.With(c, p),
                        at.writes + applied.writes, at.readback + [applied.readback]))
  }

  /** The writing loop from channel number `i` on. */
  function WriteFrom(
      at: Progress, m: Machine, now: Instant, wall: nat, program: Program,
      settled: seq<Option<Readback>>, i: nat): Written
    requires !program.Onboard? && |settled| == 2 && i <= 2
    decreases 2 - i
  {
    if i == 2 then Finished(at) else
    var one := WriteOne(at, m, now, wall, ORDER[i], TargetFor(program, ORDER[i]), settled[i]);
    if one.Broke? then one else WriteFrom(one.at, m, now, wall, program, settled, i + 1)
  }

  predicate Mismatched(readback: seq<Readback>) {
    exists k | 0 <= k < |readback| :: readback[k].mismatch
  }

  datatype Applying = Applying(executor: Executor, board: Board, outcome: ApplyOutcome)

  function Settle(at: Progress): Applying {
    if Mismatched(at.readback) then
      Applying(at.executor.Uncommitting(Pump).Uncommitting(Fan), at.board,
               ApplyOutcome(Uncertain, at.writes, at.writes == 0, at.readback))
    else
      Applying(at.executor, at.board, ApplyOutcome(Confirmed, at.writes, at.writes == 0, at.readback))
  }

  /** The record of one channel after its rollback. */
  function Rerecord(ex: Executor, s: Snapshot, v: Verified, wall: nat): Executor {
    if v.Proven? && s.mode == Some(PwmMode.Curve) && s.curve.Some? then
      ex.Committing(s.channel, Along(s.curve.value), wall)
    else if v.Proven? && s.mode == Some(PwmMode.Fixed) && s.duty.Some? then
      ex.Committing(s.channel, FixedAt(s.duty.value), wall)
    else
      ex.Uncommitting(s.channel)
  }

  datatype RolledBack = RolledBack(executor: Executor, board: Board, restored: bool)

  /** The rollback loop from channel number `i` on. */
  function RestoreFrom(at: RolledBack, m: Machine, wall: nat, snapshots: seq<Snapshot>, i: nat): RolledBack
    requires i <= |snapshots|
    decreases |snapshots| - i
  {
    if i == |snapshots| then at else
    var s := snapshots[i];
    var r := Restore(at.board.Port(s.channel), m.Driver(s.channel), s);
    RestoreFrom(RolledBack(Rerecord(at.executor, s, r.verified, wall), at.board.With(s.channel, r.port),
                           at.restored && r.verified.Proven?),
                m, wall, snapshots, i + 1)
  }

  function Abort(at: Progress, m: Machine, wall: nat, snapshots: seq<Snapshot>): Applying {
    var r := RestoreFrom(RolledBack(at.executor, at.board, true), m, wall, snapshots, 0);
    Applying(r.executor, r.board,
             ApplyOutcome(if r.restored then NotApplied else Uncertain, at.writes, false, at.readback))
  }

  function Conclude(w: Written, m: Machine, wall: nat, snapshots: seq<Snapshot>): Applying {
    match w
    case Finished(at) => Settle(at)
    case Broke(at) => Abort(at, m, wall, snapshots)
  }

  function Snapshots(ex: Executor, b: Board, m: Machine): seq<Snapshot> {
    seq(2, i requires 0 <= i < 2 => SnapshotOf(ex, b, m, ORDER[i]))
  }

  predicate AllSettled(settled: seq<Option<Readback>>)
    requires |settled| == 2
  {
    settled[0].Some? && settled[1].Some?
  }

  /** The transaction itself, once there is a device and the cadence allows it. */
  function Transact(
      ex: Executor, b: Board, m: Machine, now: Instant, wall: nat, program: Program): Applying
    requires !program.Onboard?
  {
    Conclude(WriteFrom(Progress(ex, b, 0, []), m, now, wall, program, Settled(ex, b, m, program), 0),
             m, wall, Snapshots(ex, b, m))
  }

  /** One `apply`. `bound` says whether a `kraken2023` instance can be located now, `wall` is the
      wall clock commits are stamped with. */
  function Apply(
      ex: Executor, b: Board, m: Machine, bound: bool, now: Instant, wall: nat, program: Program): Applying
  {
    if program.Onboard? then Applying(ex, b, Untouched(Hardware.Onboard)) else
    var resolved := ex.(control := ex.control || bound);
    if !resolved.control then Applying(resolved, b, Untouched(NotApplied))
    else if !AllSettled(Settled(resolved, b, m, program)) && TooSoon(resolved, now) then
      Applying(resolved, b, Untouched(NotApplied))
    else
      Transact(resolved, b, m, now, wall, program)
  }

  // ---------------------------------------------------------------- the record never lies

  /** Whatever the executor has on record for a channel is what that channel is running. */
  ghost predicate Sound(ex: Executor, b: Board) {
    forall c :: c in ex.committed ==> OnTarget(b.Cell(c), ex.committed[c].target)
  }

  /** The channel does what it did: same mode, same duty when that is what it follows, same curve
      when that is. */
  predicate SameBehavior(was: Cell, current: Cell) {
    && current.mode == was.mode
    && (was.mode.Fixed? ==> current.duty == was.duty)
    && (was.mode.Curve? ==> current.running == was.running)
  }

  /** The writing loop before channel `i`: every channel behind it is recorded, and on its target
      unless its readback said otherwise; every settled channel ahead is on its target already. */
  ghost predicate Underway(at: Progress, program: Program, settled: seq<Option<Readback>>, i: nat)
    requires !program.Onboard? && |settled| == 2 && i <= 2
  {
    && |at.readback| == i
    && (forall j :: 0 <= j < 2 && (j < i || settled[j].Some?) ==>
          at.executor.Target(ORDER[j]) == Some(TargetFor(program, ORDER[j])))
    && (forall j :: 0 <= j < i && !at.readback[j].mismatch ==>
          OnTarget(at.board.Cell(ORDER[j]), TargetFor(program, ORDER[j])))
    && (forall j :: i <= j < 2 && settled[j].Some? ==>
          OnTarget(at.board.Cell(ORDER[j]), TargetFor(program, ORDER[j])))
  }

  lemma WritingOneIsHonest(
      at: Progress, m: Machine, now: Instant, wall: nat, program: Program, settled: seq<Option<Readback>>, i: nat)
    requires !program.Onboard? && |settled| == 2 && i < 2
    requires Underway(at, program, settled, i)
    requires settled[i].Some? ==> !settled[i].value.mismatch
    ensures var w := WriteOne(at, m, now, wall, ORDER[i], TargetFor(program, ORDER[i]), settled[i]);
      && at.board.log <= w.at.board.log
      && (w.Finished? ==>
            && Underway(w.at, program, settled, i + 1)
            && w.at.writes - at.writes == |w.at.board.log| - |at.board.log|)
  {
    var c, t := ORDER[i], TargetFor(program, ORDER[i]);
    CleanReadbackMeansOnTarget(at.board.Port(c), m.Driver(c), t);
    var w := WriteOne(at, m, now, wall, c, t, settled[i]);
    if w.Finished? {
      assert w.at.board.Cell(c.Other()) == at.board.Cell(c.Other());
      assert w.at.executor.Target(c.Other()) == at.executor.Target(c.Other());
      assert w.at.readback[..i] == at.readback;
    }
  }

  lemma {:induction false} WritingIsHonest(
      at: Progress, m: Machine, now: Instant, wall: nat, program: Program, settled: seq<Option<Readback>>, i: nat)
    requires !program.Onboard? && |settled| == 2 && i <= 2
    requires forall j :: 0 <= j < 2 && settled[j].Some? ==> !settled[j].value.mismatch
    requires Underway(at, program, settled, i)
    ensures var w := WriteFrom(at, m, now, wall, program, settled, i);
      && at.board.log <= w.at.board.log
      && (w.Finished? ==>
            && Underway(w.at, program, settled, 2)
            && w.at.writes - at.writes == |w.at.board.log| - |at.board.log|)
    decreases 2 - i
  {
    if i < 2 {
      WritingOneIsHonest(at, m, now, wall, program, settled, i);
      var one := WriteOne(at, m, now, wall, ORDER[i], TargetFor(program, ORDER[i]), settled[i]);
      if one.Finished? {
        WritingIsHonest(one.at, m, now, wall, program, settled, i + 1);
      }
    }
  }

  /** The rollback loop before channel `i`: every channel behind it is recorded as it is running, or
      not at all, and when all were proven each behaves as its snapshot says. */
  ghost predicate RollingBack(at: RolledBack, snapshots: seq<Snapshot>, i: nat)
    requires |snapshots| == 2 && i <= 2
  {
    && (forall j :: 0 <= j < i && ORDER[j] in at.executor.committed ==>
          OnTarget(at.board.Cell(ORDER[j]), at.executor.committed[ORDER[j]].target))
    && (at.restored ==> forall j :: 0 <= j < i ==> Behaves(at.board.Cell(ORDER[j]), snapshots[j]))
    && (!at.restored ==> exists j :: 0 <= j < i && ORDER[j] !in at.executor.committed)
  }

  lemma {:induction false} RollbackIsHonest(
      at: RolledBack, m: Machine, wall: nat, snapshots: seq<Snapshot>, i: nat)
    requires |snapshots| == 2 && i <= 2
    requires forall j :: 0 <= j < 2 ==> snapshots[j].channel == ORDER[j]
    requires RollingBack(at, snapshots, i)
    ensures RollingBack(RestoreFrom(at, m, wall, snapshots, i), snapshots, 2)
    ensures at.board.log <= RestoreFrom(at, m, wall, snapshots, i).board.log
    decreases 2 - i
  {
    if i < 2 {
      var s := snapshots[i];
      RestoreIsSound(at.board.Port(s.channel), m.Driver(s.channel), s);
      var r := Restore(at.board.Port(s.channel), m.Driver(s.channel), s);
      var next := RolledBack(Rerecord(at.executor, s, r.verified, wall), at.board.With(s.channel, r.port),
                             at.restored && r.verified.Proven?);
      if !next.restored {
        if !at.restored {
          var j :| 0 <= j < i && ORDER[j] !in at.executor.committed;
          assert ORDER[j] !in next.executor.committed;
        } else {
          assert ORDER[i] !in next.executor.committed;
        }
      }
      RollbackIsHonest(next, m, wall, snapshots, i + 1);
    }
  }

  lemma SettlingIsHonest(at: Progress, program: Program, settled: seq<Option<Readback>>)
    requires !program.Onboard? && |settled| == 2
    requires Underway(at, program, settled, 2)
    ensures var a := Settle(at);
      && a.board == at.board
      && Sound(a.executor, a.board)
      && (a.outcome.hardware.Confirmed? <==> !Mismatched(at.readback))
      && (if a.outcome.hardware.Confirmed?
          then (forall c: Channel :: OnTarget(a.board.Cell(c), TargetFor(program, c)))
               && CommittedProgram(a.executor) == Some(program)
          else a.outcome.hardware.Uncertain? && CommittedProgram(a.executor) == None)
  {
    assert ORDER[0] == Pump && ORDER[1] == Fan;
    if !Mismatched(at.readback) {
      forall c: Channel ensures OnTarget(at.board.Cell(c), TargetFor(program, c)) {
        assert OnTarget(at.board.Cell(ORDER[if c.Pump? then 0 else 1]), TargetFor(program, c));
      }
    }
  }

  /** What a proven rollback to a snapshot of a true record means. */
  lemma BehavesAsBefore(ex: Executor, b: Board, m: Machine, c: Channel, current: Cell)
    requires Sound(ex, b)
    requires Behaves(current, SnapshotOf(ex, b, m, c))
    ensures SameBehavior(b.Cell(c), current)
  {
  }

  lemma RolledBackIsHonest(ex: Executor, b: Board, m: Machine, r: RolledBack)
    requires Sound(ex, b)
    requires RollingBack(r, Snapshots(ex, b, m), 2)
    ensures Sound(r.executor, r.board)
    ensures if r.restored then forall c: Channel :: SameBehavior(b.Cell(c), r.board.Cell(c))
            else CommittedProgram(r.executor) == None
  {
    assert ORDER[0] == Pump && ORDER[1] == Fan;
    if r.restored {
      forall c: Channel ensures SameBehavior(b.Cell(c), r.board.Cell(c)) {
        var j := if c.Pump? then 0 else 1;
        assert Behaves(r.board.Cell(ORDER[j]), Snapshots(ex, b, m)[j]);
        BehavesAsBefore(ex, b, m, c, r.board.Cell(c));
      }
    }
  }

  lemma ConcludingIsHonest(
      ex: Executor, b: Board, m: Machine, w: Written, program: Program, settled: seq<Option<Readback>>, wall: nat)
    requires Sound(ex, b) && !program.Onboard? && |settled| == 2
    requires w.Finished? ==> Underway(w.at, program, settled, 2)
    ensures var a := Conclude(w, m, wall, Snapshots(ex, b, m));
      && w.at.board.log <= a.board.log
      && (w.Finished? ==> a.board == w.at.board && a.outcome.writes == w.at.writes)
      && Sound(a.executor, a.board)
      && !a.outcome.hardware.Onboard?
      && (a.outcome.hardware.Confirmed? ==>
            && w.Finished?
            && (forall c: Channel :: OnTarget(a.board.Cell(c), TargetFor(program, c)))
            && CommittedProgram(a.executor) == Some(program))
      && (a.outcome.hardware.NotApplied? ==> forall c: Channel :: SameBehavior(b.Cell(c), a.board.Cell(c)))
      && (a.outcome.hardware.Uncertain? ==> CommittedProgram(a.executor) == None)
  {
    match w
    case Finished(at) => SettlingIsHonest(at, program, settled);
    case Broke(at) =>
      var snapshots := Snapshots(ex, b, m);
      var from := RolledBack(at.executor, at.board, true);
      RollbackIsHonest(from, m, wall, snapshots, 0);
      RolledBackIsHonest(ex, b, m, RestoreFrom(from, m, wall, snapshots, 0));
  }

  lemma StartIsUnderway(ex: Executor, b: Board, m: Machine, program: Program)
    requires Sound(ex, b) && !program.Onboard?
    ensures var settled := Settled(ex, b, m, program);
      && Underway(Progress(ex, b, 0, []), program, settled, 0)
      && forall j :: 0 <= j < 2 && settled[j].Some? ==> !settled[j].value.mismatch
  {
  }

  /** The ways one transaction may end.

      Confirmed means both channels are on their targets and the count is what was written.
      NotApplied means both behave exactly as before the call. Anything else leaves no program on
      record, and the record that remains is true of the device in every case. */
  ghost predicate Honest(b: Board, program: Program, a: Applying) {
    && b.log <= a.board.log
    && Sound(a.executor, a.board)
    && (a.outcome.hardware.Onboard? <==> program.Onboard?)
    && (a.outcome.hardware.Confirmed? ==>
          && (forall c: Channel :: OnTarget(a.board.Cell(c), TargetFor(program, c)))
          && CommittedProgram(a.executor) == Some(program)
          && a.outcome.writes == |a.board.log| - |b.log|)
    && (a.outcome.hardware.NotApplied? ==>
          forall c: Channel :: SameBehavior(b.Cell(c), a.board.Cell(c)))
    && (a.outcome.hardware.Uncertain? ==> CommittedProgram(a.executor) == None)
  }

  lemma TransactIsHonest(ex: Executor, b: Board, m: Machine, now: Instant, wall: nat, program: Program)
    requires Sound(ex, b) && !program.Onboard?
    ensures Honest(b, program, Transact(ex, b, m, now, wall, program))
  {
    var settled := Settled(ex, b, m, program);
    var start := Progress(ex, b, 0, []);
    StartIsUnderway(ex, b, m, program);
    WritingIsHonest(start, m, now, wall, program, settled, 0);
    ConcludingIsHonest(ex, b, m, WriteFrom(start, m, now, wall, program, settled, 0), program, settled, wall);
  }

  /** The contract of one `apply`, under any writes failing and failing in any way. */
  lemma ApplyIsAllOrNothing(
      ex: Executor, b: Board, m: Machine, bound: bool, now: Instant, wall: nat, program: Program)
    requires Sound(ex, b)
    ensures Honest(b, program, Apply(ex, b, m, bound, now, wall, program))
  {
    if !program.Onboard? && (ex.control || bound) {
      TransactIsHonest(ex.(control := true), b, m, now, wall, program);
    }
  }

  // ---------------------------------------------------------------- cadence and repeats

  lemma {:induction false} WritingIsStamped(
      at: Progress, m: Machine, now: Instant, wall: nat, program: Program, settled: seq<Option<Readback>>, i: nat)
    requires !program.Onboard? && |settled| == 2 && i <= 2
    ensures var w := WriteFrom(at, m, now, wall, program, settled, i);
      if forall j :: i <= j < 2 ==> settled[j].Some?
      then w.Finished? && w.at.board == at.board && w.at.executor == at.executor && w.at.writes == at.writes
           && w.at.readback == at.readback + seq(2 - i, k requires 0 <= k < 2 - i => settled[i + k].value)
      else at.board.log < w.at.board.log && w.at.executor.lastWrite == Some(now)
           && w.at.executor.control == at.executor.control
    decreases 2 - i
  {
    if i < 2 {
      var c, t := ORDER[i], TargetFor(program, ORDER[i]);
      CleanReadbackMeansOnTarget(at.board.Port(c), m.Driver(c), t);
      var one := WriteOne(at, m, now, wall, c, t, settled[i]);
      if one.Finished? {
        WritingIsStamped(one.at, m, now, wall, program, settled, i + 1);
      }
    }
  }

  lemma {:induction false} RollbackKeepsStamp(
      at: RolledBack, m: Machine, wall: nat, snapshots: seq<Snapshot>, i: nat)
    requires i <= |snapshots|
    ensures var r := RestoreFrom(at, m, wall, snapshots, i);
      && at.board.log <= r.board.log
      && r.executor.lastWrite == at.executor.lastWrite
      && r.executor.control == at.executor.control
    decreases |snapshots| - i
  {
    if i < |snapshots| {
      var s := snapshots[i];
      RestoreIsSound(at.board.Port(s.channel), m.Driver(s.channel), s);
      var r := Restore(at.board.Port(s.channel), m.Driver(s.channel), s);
      RollbackKeepsStamp(
        RolledBack(Rerecord(at.executor, s, r.verified, wall), at.board.With(s.channel, r.port),
                   at.restored && r.verified.Proven?), m, wall, snapshots, i + 1);
    }
  }

  lemma TransactIsStamped(ex: Executor, b: Board, m: Machine, now: Instant, wall: nat, program: Program)
    requires !program.Onboard?
    ensures var a := Transact(ex, b, m, now, wall, program);
      if AllSettled(Settled(ex, b, m, program))
      then a.executor == ex && a.board == b && a.outcome.hardware.Confirmed?
           && a.outcome.writes == 0 && a.outcome.deduplicated
      else b.log < a.board.log && a.executor.lastWrite == Some(now)
  {
    var settled := Settled(ex, b, m, program);
    var start := Progress(ex, b, 0, []);
    WritingIsStamped(start, m, now, wall, program, settled, 0);
    var w := WriteFrom(start, m, now, wall, program, settled, 0);
    if w.Broke? {
      RollbackKeepsStamp(RolledBack(w.at.executor, w.at.board, true), m, wall, Snapshots(ex, b, m), 0);
    }
  }

  /** A call that reaches the device stamps the clock and came no sooner than the floor allows; a
      call that does not leaves the stamp, the board and the cadence exactly as they were. */
  lemma TouchingIsSpaced(
      ex: Executor, b: Board, m: Machine, bound: bool, now: Instant, wall: nat, program: Program)
    ensures var a := Apply(ex, b, m, bound, now, wall, program);
      if a.board.log == b.log
      then a.board == b && a.executor.lastWrite == ex.lastWrite
      else && b.log < a.board.log
           && a.executor.lastWrite == Some(now)
           && (ex.lastWrite.Some? ==> now - ex.lastWrite.value >= MIN_PROGRAM_INTERVAL)
  {
    if !program.Onboard? && (ex.control || bound) {
      TransactIsStamped(ex.(control := true), b, m, now, wall, program);
    }
  }

  /** A program both channels hold, on the record and on the device, is answered without a write,
      without moving the stamp, and at any moment however soon. */
  lemma RepeatIsFree(
      ex: Executor, b: Board, m: Machine, bound: bool, now: Instant, wall: nat, program: Program)
    requires !program.Onboard? && ex.control
    requires CommittedProgram(ex) == Some(program) && Sound(ex, b)
    requires forall c: Channel ::
      m.Driver(c).modeReadable && (program.Fixed? ==> m.Driver(c).dutyReadable)
    ensures var a := Apply(ex, b, m, bound, now, wall, program);
      && a.executor == ex && a.board == b
      && a.outcome.hardware.Confirmed? && a.outcome.writes == 0 && a.outcome.deduplicated
  {
    forall c: Channel ensures AlreadyApplied(ex, b, m, c, TargetFor(program, c)).Some? {
      assert ex.Target(c) == Some(TargetFor(program, c));
      assert OnTarget(b.Cell(c), ex.committed[c].target);
    }
    assert AllSettled(Settled(ex, b, m, program));
    TransactIsStamped(ex, b, m, now, wall, program);
    assert ex.(control := true) == ex;
  }

  /** Only a transaction that wrote nothing claims to have been deduplicated. */
  lemma WritesAreCounted(ex: Executor, b: Board, m: Machine, now: Instant, wall: nat, program: Program)
    requires !program.Onboard?
    ensures var a := Transact(ex, b, m, now, wall, program);
      a.outcome.deduplicated ==> a.board.log == b.log
  {
    var start, settled := Progress(ex, b, 0, []), Settled(ex, b, m, program);
    WritingIsCounted(start, m, now, wall, program, settled, 0);
  }

  lemma {:induction false} WritingIsCounted(
      at: Progress, m: Machine, now: Instant, wall: nat, program: Program,
      settled: seq<Option<Readback>>, i: nat)
    requires !program.Onboard? && |settled| == 2 && i <= 2
    ensures var w := WriteFrom(at, m, now, wall, program, settled, i);
      && at.board.log <= w.at.board.log
      && (w.Finished? ==> w.at.writes - at.writes == |w.at.board.log| - |at.board.log|)
    decreases 2 - i
  {
    if i < 2 {
      var c, t := ORDER[i], TargetFor(program, ORDER[i]);
      CleanReadbackMeansOnTarget(at.board.Port(c), m.Driver(c), t);
      var one := WriteOne(at, m, now, wall, c, t, settled[i]);
      if one.Finished? {
        WritingIsCounted(one.at, m, now, wall, program, settled, i + 1);
      }
    }
  }

  /** By the record and by what the device reads, the channel is on the target. */
  predicate InPlace(ex: Executor, b: Board, m: Machine, c: Channel, t: Target) {
    && ex.Target(c) == Some(t)
    && ReadMode(b.Cell(c), m.Driver(c)) == Some(t.Mode())
    && (t.FixedAt? ==> ReadDuty(b.Cell(c), m.Driver(c)) == Some(t.duty))
  }

  predicate BothInPlace(ex: Executor, b: Board, m: Machine, program: Program)
    requires !program.Onboard?
  {
    InPlace(ex, b, m, Pump, TargetFor(program, Pump)) && InPlace(ex, b, m, Fan, TargetFor(program, Fan))
  }

  lemma SettledIsInPlace(ex: Executor, b: Board, m: Machine, program: Program)
    requires !program.Onboard?
    ensures AllSettled(Settled(ex, b, m, program)) <==> BothInPlace(ex, b, m, program)
  {
    assert ORDER[0] == Pump && ORDER[1] == Fan;
  }

  /** A call writes exactly when it names a program, there is a device, a channel is not in place by the record or
      by the device, and the last write is at least the floor ago; what the last call ended in is not asked. It
      says it was deduplicated exactly when both channels were in place. */
  lemma WritesExactlyWhen(
      ex: Executor, b: Board, m: Machine, bound: bool, now: Instant, wall: nat, program: Program)
    ensures var due := ex.lastWrite.None? || now - ex.lastWrite.value >= MIN_PROGRAM_INTERVAL;
      var asked := !program.Onboard? && (ex.control || bound);
      var a := Apply(ex, b, m, bound, now, wall, program);
      && (b.log < a.board.log <==> asked && !BothInPlace(ex, b, m, program) && due)
      && (a.outcome.deduplicated <==> asked && BothInPlace(ex, b, m, program))
  {
    if !program.Onboard? && (ex.control || bound) {
      var resolved := ex.(control := true);
      SettledIsInPlace(resolved, b, m, program);
      TransactIsStamped(resolved, b, m, now, wall, program);
      WritesAreCounted(resolved, b, m, now, wall, program);
    }
  }

  /** After an uncertain answer the next program is written as soon as the cadence allows, read back or not. */
  lemma AnUncertainStateDoesNotStopTheNextWrite(
      ex: Executor, b: Board, m: Machine, now: Instant, wall: nat, program: Program,
      m': Machine, now': Instant, wall': nat, program': Program)
    requires Sound(ex, b) && ex.control && !program'.Onboard?
    ensures var a := Apply(ex, b, m, true, now, wall, program);
      var next := Apply(a.executor, a.board, m', true, now', wall', program');
      a.outcome.hardware.Uncertain? && !TooSoon(a.executor, now') ==> a.board.log < next.board.log
  {
    var a := Apply(ex, b, m, true, now, wall, program);
    ApplyIsAllOrNothing(ex, b, m, true, now, wall, program);
    WritesExactlyWhen(a.executor, a.board, m', true, now', wall', program');
    if a.outcome.hardware.Uncertain? {
      var resolved := a.executor.(control := true);
      assert CommittedProgram(resolved) == None;
      if BothInPlace(resolved, a.board, m', program') {
        SettledIsInPlace(resolved, a.board, m', program');
        SettledIsOnRecord(resolved, a.board, m', program');
      }
    }
  }

  /** What is settled on both channels is the program on record. */
  lemma SettledIsOnRecord(ex: Executor, b: Board, m: Machine, program: Program)
    requires !program.Onboard? && AllSettled(Settled(ex, b, m, program))
    ensures CommittedProgram(ex) == Some(program)
  {
    assert ORDER[0] == Pump && ORDER[1] == Fan;
    assert ex.Target(Pump) == Some(TargetFor(program, Pump));
    assert ex.Target(Fan) == Some(TargetFor(program, Fan));
  }

  // ---------------------------------------------------------------- when nothing fails

  ghost predicate Confirmable(m: Machine, program: Program, settled: seq<Option<Readback>>, j: nat)
    requires !program.Onboard? && |settled| == 2 && j < 2
  {
    settled[j].Some? || CanConfirm(m.Driver(ORDER[j]), TargetFor(program, ORDER[j]))
  }

  lemma {:induction false} NothingFailsWriting(
      at: Progress, m: Machine, now: Instant, wall: nat, program: Program, settled: seq<Option<Readback>>, i: nat)
    requires !program.Onboard? && |settled| == 2 && i <= 2 && at.board.faults == [] && |at.readback| == i
    requires forall j :: 0 <= j < 2 && settled[j].Some? ==> !settled[j].value.mismatch
    ensures var w := WriteFrom(at, m, now, wall, program, settled, i);
      && w.Finished? && |w.at.readback| == 2
      && at.readback <= w.at.readback
      && forall j :: i <= j < 2 ==> (!w.at.readback[j].mismatch <==> Confirmable(m, program, settled, j))
    decreases 2 - i
  {
    if i < 2 {
      var c, t := ORDER[i], TargetFor(program, ORDER[i]);
      NothingFailsTarget(at.board.Port(c), m.Driver(c), t);
      var one := WriteOne(at, m, now, wall, c, t, settled[i]);
      NothingFailsWriting(one.at, m, now, wall, program, settled, i + 1);
    }
  }

  /** With no write failing, a transaction ends Confirmed exactly when every channel either held
      its target already or is on a machine able to show that it now does, and Uncertain otherwise. */
  lemma TransactIsComplete(ex: Executor, b: Board, m: Machine, now: Instant, wall: nat, program: Program)
    requires !program.Onboard? && b.faults == []
    ensures var h := Transact(ex, b, m, now, wall, program).outcome.hardware;
      && (h.Confirmed? || h.Uncertain?)
      && (h.Confirmed? <==> forall j: nat :: j < 2 ==> Confirmable(m, program, Settled(ex, b, m, program), j))
  {
    var settled := Settled(ex, b, m, program);
    NothingFailsWriting(Progress(ex, b, 0, []), m, now, wall, program, settled, 0);
  }

  // ---------------------------------------------------------------- what is answered and what is kept

  /** The readback is of this channel, as it reads now. */
  predicate ReadsAs(r: Readback, c: Channel, b: Board, m: Machine) {
    r.channel == c && r.mode == ReadMode(b.Cell(c), m.Driver(c)) && r.duty == ReadDuty(b.Cell(c), m.Driver(c))
  }

  predicate Kept(ex: Executor, after: Executor, c: Channel) {
    (c in after.committed <==> c in ex.committed) && (c in ex.committed ==> after.committed[c] == ex.committed[c])
  }

  /** One channel through the writing loop: its readback is true of it, and it is on record as of this call if it
      was written and as before if it was not; the other channel is left alone. */
  lemma OneAnswersTruly(
      at: Progress, m: Machine, now: Instant, wall: nat, c: Channel, t: Target, settled: Option<Readback>)
    requires settled.Some? ==> ReadsAs(settled.value, c, at.board, m)
    ensures var w := WriteOne(at, m, now, wall, c, t, settled);
      w.Finished? ==>
        && |w.at.readback| == |at.readback| + 1 && at.readback <= w.at.readback
        && ReadsAs(w.at.readback[|at.readback|], c, w.at.board, m)
        && w.at.board.Cell(c.Other()) == at.board.Cell(c.Other())
        && Kept(at.executor, w.at.executor, c.Other())
        && if settled.Some? then w.at.executor == at.executor
           else c in w.at.executor.committed && w.at.executor.committed[c] == Commit(t, wall)
  {
    CleanReadbackMeansOnTarget(at.board.Port(c), m.Driver(c), t);
    if settled.None? {
      WrittenReadsAs(at.board.Port(c), m.Driver(c), t);
    }
  }

  /** What a completed write reads back is how the channel then reads. */
  lemma WrittenReadsAs(p: Port, d: Driver, t: Target)
    ensures var o := WriteTarget(p, d, t);
      o.Done? ==>
        && o.applied.readback.mode == ReadMode(o.port.cell, d)
        && o.applied.readback.duty == ReadDuty(o.port.cell, d)
  {
  }

  /** Both channels in turn, pump first. */
  lemma TwoAreWritten(
      at: Progress, m: Machine, now: Instant, wall: nat, program: Program, settled: seq<Option<Readback>>)
    requires !program.Onboard? && |settled| == 2
    ensures var w := WriteFrom(at, m, now, wall, program, settled, 0);
      var one := WriteOne(at, m, now, wall, Pump, TargetFor(program, Pump), settled[0]);
      w == if one.Broke? then one else WriteOne(one.at, m, now, wall, Fan, TargetFor(program, Fan), settled[1])
  {
    assert ORDER[0] == Pump && ORDER[1] == Fan;
    var one := WriteOne(at, m, now, wall, Pump, TargetFor(program, Pump), settled[0]);
    if one.Finished? {
      var two := WriteOne(one.at, m, now, wall, Fan, TargetFor(program, Fan), settled[1]);
      assert two.Finished? ==> WriteFrom(two.at, m, now, wall, program, settled, 2) == two;
      assert WriteFrom(one.at, m, now, wall, program, settled, 1) == two;
    }
  }

  /** The channel is on record at the target: as before if it was in place, as of this call if it was written. */
  predicate RecordedAt(ex: Executor, b: Board, m: Machine, after: Executor, c: Channel, t: Target, wall: nat) {
    if InPlace(ex, b, m, c, t) then Kept(ex, after, c)
    else c in after.committed && after.committed[c] == Commit(t, wall)
  }

  /** A completed call answers with how each channel now reads, pump first, and while it ran put each on record as
      of this call or left it at the date it had. */
  lemma ACompletedCallAnswersTruly(ex: Executor, b: Board, m: Machine, now: Instant, wall: nat, program: Program)
    requires !program.Onboard?
    ensures var w := WriteFrom(Progress(ex, b, 0, []), m, now, wall, program, Settled(ex, b, m, program), 0);
      w.Finished? ==>
        && |w.at.readback| == 2
        && ReadsAs(w.at.readback[0], Pump, w.at.board, m) && ReadsAs(w.at.readback[1], Fan, w.at.board, m)
        && RecordedAt(ex, b, m, w.at.executor, Pump, TargetFor(program, Pump), wall)
        && RecordedAt(ex, b, m, w.at.executor, Fan, TargetFor(program, Fan), wall)
  {
    var start, settled := Progress(ex, b, 0, []), Settled(ex, b, m, program);
    assert ORDER[0] == Pump && ORDER[1] == Fan;
    TwoAreWritten(start, m, now, wall, program, settled);
    OneAnswersTruly(start, m, now, wall, Pump, TargetFor(program, Pump), settled[0]);
    var one := WriteOne(start, m, now, wall, Pump, TargetFor(program, Pump), settled[0]);
    if one.Finished? {
      OneAnswersTruly(one.at, m, now, wall, Fan, TargetFor(program, Fan), settled[1]);
    }
  }

  /** So whatever its outcome: a completed call answers with how each channel reads, and a confirmed one leaves both
      on record. */
  lemma AConfirmedCallAnswersTruly(ex: Executor, b: Board, m: Machine, now: Instant, wall: nat, program: Program)
    requires !program.Onboard?
    ensures var a := Transact(ex, b, m, now, wall, program);
      var w := WriteFrom(Progress(ex, b, 0, []), m, now, wall, program, Settled(ex, b, m, program), 0);
      && (w.Finished? ==>
            && |a.outcome.readback| == 2
            && ReadsAs(a.outcome.readback[0], Pump, a.board, m) && ReadsAs(a.outcome.readback[1], Fan, a.board, m))
      && (a.outcome.hardware.Confirmed? ==>
            && w.Finished?
            && RecordedAt(ex, b, m, a.executor, Pump, TargetFor(program, Pump), wall)
            && RecordedAt(ex, b, m, a.executor, Fan, TargetFor(program, Fan), wall))
  {
    ACompletedCallAnswersTruly(ex, b, m, now, wall, program);
  }

  /** An aborted call answers for the channel it had completed and for nothing else: how the pump read when the fan's
      write failed, and the attributes the pump had cost; nothing when the pump's own write failed. */
  lemma AnAbortedCallAnswersForThePump(ex: Executor, b: Board, m: Machine, now: Instant, wall: nat, program: Program)
    requires !program.Onboard?
    ensures var a := Transact(ex, b, m, now, wall, program);
      var settled := Settled(ex, b, m, program);
      var start := Progress(ex, b, 0, []);
      var one := WriteOne(start, m, now, wall, Pump, TargetFor(program, Pump), settled[0]);
      WriteFrom(start, m, now, wall, program, settled, 0).Broke? ==>
        && !a.outcome.deduplicated
        && (if one.Broke? then a.outcome.writes == 0 && a.outcome.readback == []
            else && a.outcome.writes == |one.at.board.log| - |b.log|
                 && |a.outcome.readback| == 1 && ReadsAs(a.outcome.readback[0], Pump, one.at.board, m))
  {
    var start, settled := Progress(ex, b, 0, []), Settled(ex, b, m, program);
    assert ORDER[0] == Pump && ORDER[1] == Fan;
    TwoAreWritten(start, m, now, wall, program, settled);
    OneAnswersTruly(start, m, now, wall, Pump, TargetFor(program, Pump), settled[0]);
    CleanReadbackMeansOnTarget(b.Port(Pump), m.pump, TargetFor(program, Pump));
  }

  /** What Confirmed means channel by channel: each runs its own part of the program and nothing of the other's. */
  lemma AConfirmedProgramIsRunning(
      ex: Executor, b: Board, m: Machine, bound: bool, now: Instant, wall: nat, program: Program)
    requires Sound(ex, b)
    ensures var a := Apply(ex, b, m, bound, now, wall, program);
      a.outcome.hardware.Confirmed? ==>
        match program
        case Onboard => false
        case Fixed(pump, fan) =>
          && a.board.pump.mode.Fixed? && a.board.pump.duty == pump
          && a.board.fan.mode.Fixed? && a.board.fan.duty == fan
        case Curve(pump, fan) =>
          && a.board.pump.mode.Curve? && a.board.pump.running == pump
          && a.board.fan.mode.Curve? && a.board.fan.running == fan
  {
    var a := Apply(ex, b, m, bound, now, wall, program);
    ApplyIsAllOrNothing(ex, b, m, bound, now, wall, program);
    if a.outcome.hardware.Confirmed? {
      assert OnTarget(a.board.Cell(Pump), TargetFor(program, Pump)) && OnTarget(a.board.Cell(Fan), TargetFor(program, Fan));
    }
  }
}
