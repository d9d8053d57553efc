/**
 The lighting and panel records under the daemon: through starts, requests, activations and ticks they stay
 true of their devices, as the cooling record does. Models crates/daemon/src/state.rs over
 crates/daemon/src/lighting.rs and crates/daemon/src/display.rs.
 */
module DaemonRecords {
  import opened Basics
  import opened Daemon
  import Config
  import CoolingRuns
  import Display
  import Lighting
  import Profiles

  /** What either record holds is what its device shows. */
  ghost predicate RecordsAreTrue(d: State) {
    && Lighting.Sound(d.lighting.executor, d.lighting.controller)
    && Display.Sound(d.display.executor, d.display.panel)
  }

  /** No brightness report of this link lands and is called a failure. */
  predicate Candid(link: Display.Link) {
    link.report.Refused? ==> !link.report.landed
  }

  predicate CandidRequest(r: Request) {
    match r
    case ApplyPicture(_, w) => Candid(w.link)
    case Activate(_, _, w) => Candid(w.panel.link)
    case Ticked(_, _, _, _, _, _, w) => Candid(w.link)
    case TickedAnimation(_, link) => Candid(link)
    case _ => true
  }

  lemma RememberingLeavesDevices(d: State, confirmed: bool, op: Config.Operation, memory: Memory, landed: bool)
    ensures var next := Concluded(d, confirmed, op, memory, landed);
      next.lighting == d.lighting && next.display == d.display
  {
  }

  lemma IlluminatingStaysTrue(d: State, c: Lighting.Command, w: LightWorld)
    requires RecordsAreTrue(d)
    ensures RecordsAreTrue(Illuminate(d, c, w).state)
  {
    if GateLighting(d.facts, c).None? {
      var lit := Lighting.Apply(d.lighting.executor, d.lighting.controller, w.now, c, w.link);
      RememberingLeavesDevices(Lit(d, c, w), lit.outcome.hardware.Confirmed?, Config.RecordLighting(c), Light(c), w.landed);
    }
  }

  lemma DisplayingStaysTrue(d: State, e: Display.Event)
    requires RecordsAreTrue(d) && Display.ReportsHold(d.display, e)
    ensures RecordsAreTrue(Displayed(d, e))
  {
    Display.StepKeepsRecordExactlyWhen(d.display, e);
  }

  lemma ShowingStaysTrue(d: State, preset: Display.Preset, w: PanelWorld)
    requires RecordsAreTrue(d) && Candid(w.link)
    ensures RecordsAreTrue(Show(d, preset, w).state)
  {
    if GateDisplay(d.facts, preset).None? {
      var e := Display.Applied(preset, w.renderer, w.link, w.now);
      DisplayingStaysTrue(d, e);
      var shown := Display.Apply(d.display.executor, d.display.panel, preset, w.renderer, w.link, w.now);
      if shown.Some? {
        RememberingLeavesDevices(Displayed(d, e), shown.value.outcome.hardware.Confirmed?, Config.RecordDisplay(preset),
                                 Picture(preset), w.landed);
      }
    }
  }

  lemma ExecutingStaysTrue(d: State, program: Profiles.Program, w: CoolingWorld)
    requires RecordsAreTrue(d)
    ensures RecordsAreTrue(Execute(d, program, w).state)
  {
  }

  lemma {:induction false} LightingStaysTrue(d: State, commands: seq<Lighting.Command>, lights: seq<LightWorld>)
    requires RecordsAreTrue(d)
    ensures RecordsAreTrue(ApplyLighting(d, commands, lights))
  {
    if commands != [] {
      var n := |commands| - 1;
      LightingStaysTrue(d, commands[..n], lights);
      IlluminatingStaysTrue(ApplyLighting(d, commands[..n], lights), commands[n], LightAt(lights, n));
    }
  }

  lemma PuttingBackStaysTrue(
      d: State, lighting: seq<Lighting.Command>, preset: Option<Display.Preset>,
      program: Option<Profiles.Program>, w: World)
    requires RecordsAreTrue(d) && Candid(w.panel.link)
    ensures RecordsAreTrue(PutBack(d, lighting, preset, program, w))
  {
    LightingStaysTrue(d, lighting, w.lights);
    var lit := ApplyLighting(d, lighting, w.lights);
    if preset.Some? {
      ShowingStaysTrue(lit, preset.value, w.panel);
    }
    if program.Some? {
      ExecutingStaysTrue(ApplyDisplay(lit, preset, w.panel), program.value, w.cooling);
    }
  }

  lemma ActivatingStaysTrue(d: State, name: string, landed: bool, w: World)
    requires RecordsAreTrue(d) && Candid(w.panel.link)
    ensures RecordsAreTrue(ActivateProfile(d, name, landed, w).state)
  {
    var found := Config.Find(Config.Offered(d.config.document), name);
    if found.Some? {
      var (config, error) := Config.Perform(d.config, Config.Activate(name), landed);
      var p := found.value;
      PuttingBackStaysTrue(d.(config := config), p.lighting, p.display, Some(p.program), w);
    }
  }

  lemma TickingStaysTrue(d: State, r: Request)
    requires RecordsAreTrue(d) && r.Ticked? && CandidRequest(r)
    ensures RecordsAreTrue(Handle(d, r))
  {
    var e := if r.present then CoolingRuns.Check(r.kraken, r.wall) else CoolingRuns.Reconnect(r.pump, r.fan);
    DisplayingStaysTrue(Cooled(d, e), if r.present then Display.Refreshed(r.panelWorld.renderer, r.panelWorld.link)
                                      else Display.Reconnected(r.panel));
  }

  lemma HandlingStaysTrue(d: State, r: Request)
    requires RecordsAreTrue(d) && CandidRequest(r)
    ensures RecordsAreTrue(Handle(d, r))
  {
    match r
    case ApplyProgram(program, w) => ExecutingStaysTrue(d, program, w);
    case ApplyLight(command, w) => IlluminatingStaysTrue(d, command, w);
    case ApplyPicture(preset, w) => ShowingStaysTrue(d, preset, w);
    case Activate(name, landed, w) => ActivatingStaysTrue(d, name, landed, w);
    case Ticked(_, _, _, _, _, _, _) => TickingStaysTrue(d, r);
    case TickedAnimation(now, link) => DisplayingStaysTrue(d, Display.Advanced(link, now));
    case DroppedFrame => DisplayingStaysTrue(d, Display.Dropped);
    case _ =>
  }

  /** Through a start and any requests, failing transfers and failing disk writes, each lighting channel on
      record shows what is on record and so does the panel, as long as no refused brightness report lands. */
  lemma {:induction false} RecordsHoldUnderTheDaemon(m: Machine, w: World, requests: seq<Request>)
    requires Candid(w.panel.link) && forall i :: 0 <= i < |requests| ==> CandidRequest(requests[i])
    ensures RecordsAreTrue(Serve(Start(m, w), requests))
  {
    if requests == [] {
      var d := Boot(m);
      assert RecordsAreTrue(d);
      var doc := d.config.document;
      var held := Config.RestoredProgram(doc);
      PuttingBackStaysTrue(d, Config.LightingToRestore(doc), Config.RestoredDisplay(doc),
                           if held.Some? then Some(held.value.program) else None, w);
    } else {
      var n := |requests| - 1;
      RecordsHoldUnderTheDaemon(m, w, requests[..n]);
      HandlingStaysTrue(Serve(Start(m, w), requests[..n]), requests[n]);
    }
  }
}
