/**
 The lighting executor: per-channel record and cadence over a controller that acknowledges nothing.
 Models crates/daemon/src/lighting.rs.
 */
module Lighting {
  import opened Basics

  const MIN_COMMAND_INTERVAL: nat := 50 * NANOS_PER_MILLI

  /** What a channel shows. `wellFormed` stands for an effect's own checks of its colors and its
      direction. */
  datatype Program =
    | Off
    | Solid(color: int, brightness: byte)
    | Effect(kind: int, colors: seq<int>, speed: int, wellFormed: bool)
  {
    predicate WellFormed() {
      Effect? ==> wellFormed
    }
  }

  datatype Command = Command(channel: byte, program: Program)

  /** What each channel of the controller is showing. */
  type Controller = map<byte, Program>

  /** How one report ends. A failed one leaves the controller in any state: the node may have gone
      away, and the controller may come back on its firmware defaults. */
  datatype Link = Sent | Broken(leaves: Controller)

  datatype Hardware = Confirmed | NotApplied | Uncertain

  datatype Outcome = Outcome(hardware: Hardware, deduplicated: bool, writes: nat)

  datatype Executor = Executor(
    connected: bool, committed: map<byte, Program>, lastSent: map<byte, Instant>)

  function Answer(hardware: Hardware, writes: nat): Outcome {
    Outcome(hardware, writes == 0 && hardware.Confirmed?, writes)
  }

  predicate Holds(ex: Executor, c: Command) {
    c.channel in ex.committed && ex.committed[c.channel] == c.program
  }

  predicate TooSoon(ex: Executor, now: Instant, c: Command) {
    c.channel in ex.lastSent && SaturatingSince(now, ex.lastSent[c.channel]) < MIN_COMMAND_INTERVAL
  }

  /** Whether this command puts a report on the wire. */
  predicate Sends(ex: Executor, now: Instant, c: Command) {
    !Holds(ex, c) && !TooSoon(ex, now, c) && ex.connected
  }

  datatype Lit = Lit(executor: Executor, controller: Controller, outcome: Outcome)

  function Apply(ex: Executor, k: Controller, now: Instant, c: Command, link: Link): Lit {
    if Holds(ex, c) then Lit(ex, k, Answer(Confirmed, 0))
    else if TooSoon(ex, now, c) then Lit(ex, k, Answer(NotApplied, 0))
    else if !ex.connected then Lit(ex, k, Answer(NotApplied, 0))
    else
      var stamped := ex.(lastSent := ex.lastSent[c.channel := now]);
      match link
      case Sent =>
        Lit(stamped.(committed := ex.committed[c.channel := c.program]), k[c.channel := c.program],
            Answer(Confirmed, 1))
      case Broken(leaves) =>
        Lit(stamped.(committed := map[]), leaves, Answer(Uncertain, 0))
  }

  // ---------------------------------------------------------------- deduplication is invisible

  /** Every channel on record shows what the record says. */
  ghost predicate Sound(ex: Executor, k: Controller) {
    forall c :: c in ex.committed ==> c in k && k[c] == ex.committed[c]
  }

  datatype Request = Request(now: Instant, command: Command, link: Link)

  datatype System = System(executor: Executor, controller: Controller)

  function Step(s: System, r: Request): System {
    var lit := Apply(s.executor, s.controller, r.now, r.command, r.link);
    System(lit.executor, lit.controller)
  }

  function Run(s: System, requests: seq<Request>): System {
    if requests == [] then s
    else Step(Run(s, requests[..|requests| - 1]), requests[|requests| - 1])
  }

  /** An executor that keeps no record: it sends the command whenever the other one answered it as
      done or tried to send it, and a report the other one did not send did not fail. */
  function ReferenceStep(s: System, r: Request, reference: Controller): Controller {
    if Holds(s.executor, r.command) then reference[r.command.channel := r.command.program]
    else if !Sends(s.executor, r.now, r.command) then reference
    else match r.link
      case Sent => reference[r.command.channel := r.command.program]
      case Broken(leaves) => leaves
  }

  function ReferenceRun(s: System, requests: seq<Request>): Controller {
    if requests == [] then s.controller else
    var before := requests[..|requests| - 1];
    ReferenceStep(Run(s, before), requests[|requests| - 1], ReferenceRun(s, before))
  }

  /** After any run of commands and failures, the controller shows what one that was always sent
      everything shows, and the record is true of it. A confirmed answer means the channel shows the
      program; an uncertain one leaves nothing on record on any channel. */
  lemma {:induction false} DeduplicationIsInvisible(s: System, requests: seq<Request>)
    requires s.executor.committed == map[]
    ensures var t := Run(s, requests);
      Sound(t.executor, t.controller) && t.controller == ReferenceRun(s, requests)
  {
    if requests != [] {
      DeduplicationIsInvisible(s, requests[..|requests| - 1]);
      var t, r := Run(s, requests[..|requests| - 1]), requests[|requests| - 1];
      if Holds(t.executor, r.command) {
        assert t.controller[r.command.channel := r.command.program] == t.controller;
      }
    }
  }

  lemma AnswersAreTrue(s: System, requests: seq<Request>, r: Request)
    requires s.executor.committed == map[]
    ensures var before := Run(s, requests);
      var lit := Apply(before.executor, before.controller, r.now, r.command, r.link);
      && (lit.outcome.hardware.Confirmed? ==>
            r.command.channel in lit.controller && lit.controller[r.command.channel] == r.command.program)
      && (lit.outcome.hardware.NotApplied? ==> lit.controller == before.controller)
      && (lit.outcome.hardware.Uncertain? ==> lit.executor.committed == map[])
      && (lit.outcome.deduplicated <==> Holds(before.executor, r.command))
  {
    DeduplicationIsInvisible(s, requests);
  }

  // ---------------------------------------------------------------- cadence

  /** The moments at which a run put a report for `channel` on the wire. */
  function SentAt(s: System, requests: seq<Request>, channel: byte): seq<Instant> {
    if requests == [] then [] else
    var before, r := requests[..|requests| - 1], requests[|requests| - 1];
    SentAt(s, before, channel)
    + if r.command.channel == channel && Sends(Run(s, before).executor, r.now, r.command) then [r.now] else []
  }

  /** Any two reports attempted on one channel are at least the floor apart, and the stamp of each
      channel is its last attempt, whatever failed and was forgotten in between. */
  lemma {:induction false} ReportsAreSpaced(s: System, requests: seq<Request>, channel: byte)
    requires s.executor.lastSent == map[]
    ensures var t := SentAt(s, requests, channel);
      var last := Run(s, requests).executor.lastSent;
      && (channel in last <==> t != [])
      && (t != [] ==> last[channel] == t[|t| - 1])
      && (forall i, j :: 0 <= i < j < |t| ==> t[j] - t[i] >= MIN_COMMAND_INTERVAL)
  {
    if requests != [] {
      ReportsAreSpaced(s, requests[..|requests| - 1], channel);
    }
  }

  /** What becomes of a command, by the record and the clock alone: answered from the record, refused for coming
      less than the floor after the last attempt on its channel or for want of a controller, or sent. */
  lemma SentExactlyWhen(ex: Executor, k: Controller, now: Instant, c: Command, link: Link)
    ensures var lit := Apply(ex, k, now, c, link);
      var held := c.channel in ex.committed && ex.committed[c.channel] == c.program;
      var due := c.channel !in ex.lastSent || now - ex.lastSent[c.channel] >= MIN_COMMAND_INTERVAL;
      && (lit.outcome.deduplicated <==> held)
      && (lit.outcome.hardware.NotApplied? <==> !held && !(due && ex.connected))
      && (lit.outcome.writes == (if !held && due && ex.connected && link.Sent? then 1 else 0))
      && (Sends(ex, now, c) <==> !held && due && ex.connected)
      && (if !held && due && ex.connected
          then lit.executor.lastSent == ex.lastSent[c.channel := now]
               && (link.Sent? ==> lit.controller == k[c.channel := c.program]
                                  && lit.executor.committed == ex.committed[c.channel := c.program])
               && (link.Broken? ==> lit.controller == link.leaves && lit.executor.committed == map[])
          else lit.executor == ex && lit.controller == k)
  {
  }
}
