/** The lighting executor as the object it is. Models crates/daemon/src/lighting.rs. */
module LightingWriter {
  import opened Basics
  import opened Lighting

  /** The executor as the object it is, with the controller it owns. */
  class LightingExecutor {
    const connected: bool
    var committed: map<byte, Program>
    var lastSent: map<byte, Instant>
    var controller: Controller

    constructor (connected: bool, controller: Controller)
      ensures Value() == Executor(connected, map[], map[]) && this.controller == controller
    {
      this.connected, this.controller := connected, controller;
      committed, lastSent := map[], map[];
    }

    function Value(): Executor
      reads this
    {
      Executor(connected, committed, lastSent)
    }

    method Apply(now: Instant, command: Command, link: Link) returns (outcome: Outcome)
      modifies this
      ensures var r := Lighting.Apply(old(Value()), old(controller), now, command, link);
        Value() == r.executor && controller == r.controller && outcome == r.outcome
    {
      if command.channel in committed && committed[command.channel] == command.program {
        return Answer(Confirmed, 0);
      }
      if TooSoon(Value(), now, command) {
        return Answer(NotApplied, 0);
      }
      if !connected {
        return Answer(NotApplied, 0);
      }
      match link {
        case Sent =>
          controller := controller[command.channel := command.program];
          lastSent := lastSent[command.channel := now];
          committed := committed[command.channel := command.program];
          return Answer(Confirmed, 1);
        case Broken(leaves) =>
          controller := leaves;
          lastSent := lastSent[command.channel := now];
          committed := map[];
          return Answer(Uncertain, 0);
      }
    }
  }
}
