/**
 What a start and an activation ask of each device, and where they leave the cooler. Models
 `restore_active_profile` and `activate_profile` in crates/daemon/src/state.rs from the side of the
 executors they call.
 */
module Starting {
  import opened Basics
  import opened Daemon
  import Config
  import Control
  import Cooling
  import CoolingRuns
  import Display
  import Lighting
  import Profiles

  /** The call the cooling executor gets for a program, in the world it meets. */
  function Asking(program: Profiles.Program, w: CoolingWorld): CoolingRuns.Event {
    CoolingRuns.Request(w.now, w.wall, program, w.bound, w.machine, w.faults)
  }

  function Offering(preset: Display.Preset, w: PanelWorld): Display.Event {
    Display.Applied(preset, w.renderer, w.link, w.now)
  }

  /** What the act that asked for a program is told: the executor's answer, or that nothing was written. */
  function Answer(d: State, program: Profiles.Program, w: CoolingWorld): Cooling.ApplyOutcome {
    if GateProgram(d.facts, program).None? then CoolingRuns.Asked(d.cooling, Asking(program, w)).outcome
    else Cooling.Untouched(Cooling.NotApplied)
  }

  /** The program is one the daemon may write: safe, and nothing to write or a cooler that takes it with
      nobody else holding a device. */
  ghost predicate MayRun(f: Facts, program: Profiles.Program) {
    Profiles.ProgramIsSafe(program) && (program.Onboard? || (CoolerTakes(f.kraken, program) && !f.conflicted))
  }

  predicate MayShow(f: Facts, preset: Display.Preset) {
    preset.wellFormed && Writable(f.kraken, LcdFrame) && Writable(f.kraken, LcdDisplayControl) && !f.conflicted
  }

  /** Between two states the cooling executor was asked for this program, if it may run and there is one, and
      for nothing else. */
  ghost predicate Asked(d: State, next: State, program: Option<Profiles.Program>, w: CoolingWorld) {
    if program.Some? && MayRun(d.facts, program.value) then
      && next.cooled == d.cooled + [Asking(program.value, w)]
      && next.cooling == CoolingRuns.Step(d.cooling, Asking(program.value, w))
    else next.cooled == d.cooled && next.cooling == d.cooling
  }

  /** The same of the panel. */
  predicate Pictured(d: State, next: State, preset: Option<Display.Preset>, w: PanelWorld) {
    next.display ==
      if preset.Some? && MayShow(d.facts, preset.value) then Display.Step(d.display, Offering(preset.value, w))
      else d.display
  }

  /** Each executor is asked for its own part and for that alone. */
  lemma PuttingBackAsks(
      d: State, lighting: seq<Lighting.Command>, preset: Option<Display.Preset>,
      program: Option<Profiles.Program>, w: World)
    ensures var next := PutBack(d, lighting, preset, program, w);
      && Asked(d, next, program, w.cooling)
      && Pictured(d, next, preset, w.panel)
      && next.lighting == ApplyLighting(d, lighting, w.lights).lighting
      && next.facts == d.facts
  {
    LightsAlone(d, lighting, w.lights);
    var lit := ApplyLighting(d, lighting, w.lights);
    if preset.Some? {
      PictureAlone(lit, preset.value, w.panel);
    }
    if program.Some? {
      ProgramAlone(ApplyDisplay(lit, preset, w.panel), program.value, w.cooling);
    }
  }

  lemma {:induction false} LightsAlone(d: State, commands: seq<Lighting.Command>, lights: seq<LightWorld>)
    ensures var next := ApplyLighting(d, commands, lights);
      next.cooled == d.cooled && next.cooling == d.cooling && next.display == d.display && next.facts == d.facts
  {
    if commands != [] {
      LightsAlone(d, commands[..|commands| - 1], lights);
    }
  }

  lemma PictureAlone(d: State, preset: Display.Preset, w: PanelWorld)
    ensures var next := Show(d, preset, w).state;
      && Pictured(d, next, Some(preset), w)
      && next.cooled == d.cooled && next.cooling == d.cooling && next.lighting == d.lighting && next.facts == d.facts
  {
    PicturePassesExactlyWhen(d.facts, preset);
  }

  lemma ProgramAlone(d: State, program: Profiles.Program, w: CoolingWorld)
    ensures var next := Execute(d, program, w).state;
      && Asked(d, next, Some(program), w)
      && next.display == d.display && next.lighting == d.lighting && next.facts == d.facts
  {
    ProgramPassesExactlyWhen(d.facts, program);
  }

  // ---------------------------------------------------------------- a start

  /** What the session holds, or what the active profile does. */
  function SessionOver<T>(session: Option<T>, profile: Option<T>): Option<T> {
    if session.Some? then session else profile
  }

  /** A start asks the cooling executor once, for the session's program or else the profile's, if that writes
      anything and may run; and the panel once, for the session's picture or else the profile's, if it may be
      shown. It asks for nothing else. */
  lemma AStartAsksForTheSession(m: Machine, w: World)
    ensures var d := Start(m, w);
      var doc := Config.Load(m.file, m.renamed).document;
      var profile := Config.ActiveProfile(doc);
      var program := SessionOver(doc.session.program, Some(profile.program)).value;
      var preset := SessionOver(doc.session.display, profile.display);
      && d.cooled == (if !program.Onboard? && MayRun(m.facts, program) then [Asking(program, w.cooling)] else [])
      && d.display ==
           (if preset.Some? && MayShow(m.facts, preset.value)
            then Display.Step(Boot(m).display, Offering(preset.value, w.panel)) else Boot(m).display)
  {
    var b := Boot(m);
    var doc := b.config.document;
    var held := Config.RestoredProgram(doc);
    PuttingBackAsks(b, Config.LightingToRestore(doc), Config.RestoredDisplay(doc),
                    if held.Some? then Some(held.value.program) else None, w);
  }

  /** With a device that can be found, nothing failing and a machine that can show both targets, a start ends
      with both channels on the program the operator left running. */
  lemma AStartPutsTheProgramBack(m: Machine, w: World, program: Profiles.Program)
    requires !program.Onboard? && MayRun(m.facts, program)
    requires var doc := Config.Load(m.file, m.renamed).document;
      program == SessionOver(doc.session.program, Some(Config.ActiveProfile(doc).program)).value
    requires (m.bound || w.cooling.bound) && w.cooling.faults == []
    requires forall c: Profiles.Channel ::
      Control.CanConfirm(w.cooling.machine.Driver(c), Cooling.TargetFor(program, c))
    ensures var d := Start(m, w);
      && (forall c: Profiles.Channel ::
            Control.OnTarget(d.cooling.board.Cell(c), Cooling.TargetFor(program, c)))
      && Cooling.CommittedProgram(d.cooling.executor) == Some(program)
  {
    var b := Boot(m);
    var doc := b.config.document;
    var held := Config.RestoredProgram(doc);
    PuttingBackAsks(b, Config.LightingToRestore(doc), Config.RestoredDisplay(doc),
                    if held.Some? then Some(held.value.program) else None, w);
    assert Start(m, w).cooling == CoolingRuns.Step(b.cooling, Asking(program, w.cooling));
    AFirstCallIsConfirmed(b.cooling, Asking(program, w.cooling));
  }

  /** The first call of a process, under the same conditions. */
  lemma AFirstCallIsConfirmed(s: CoolingRuns.System, e: CoolingRuns.Event)
    requires CoolingRuns.Fresh(s) && e.Request? && !e.program.Onboard?
    requires (s.executor.control || e.bound) && e.faults == []
    requires forall c: Profiles.Channel ::
      Control.CanConfirm(e.machine.Driver(c), Cooling.TargetFor(e.program, c))
    ensures var next := CoolingRuns.Step(s, e);
      && (forall c: Profiles.Channel ::
            Control.OnTarget(next.board.Cell(c), Cooling.TargetFor(e.program, c)))
      && Cooling.CommittedProgram(next.executor) == Some(e.program)
  {
    var ex, b := s.executor.(control := true), s.board.(faults := e.faults);
    Cooling.TransactIsComplete(ex, b, e.machine, e.now, e.wall, e.program);
    Cooling.ApplyIsAllOrNothing(s.executor, b, e.machine, e.bound, e.now, e.wall, e.program);
    assert s.executor.(control := s.executor.control || e.bound) == ex;
    var settled := Cooling.Settled(ex, b, e.machine, e.program);
    assert forall j :: 0 <= j < 2 ==> Cooling.Confirmable(e.machine, e.program, settled, j);
  }

  // ---------------------------------------------------------------- an activation

  /** An activation that passes and reaches the disk selects the profile and asks each executor for the
      profile's own part, whatever the session holds; any other asks for nothing. */
  lemma AnActivationAsksForTheProfile(d: State, name: string, landed: bool, w: World)
    ensures var found := Config.Find(Config.Offered(d.config.document), name);
      var a := ActivateProfile(d, name, landed, w);
      if found.Some? && GateActivation(d.facts, found.value).None? && landed then
        && a.refusal == None
        && Asked(d, a.state, Some(found.value.program), w.cooling)
        && Pictured(d, a.state, found.value.display, w.panel)
        && a.state.lighting == ApplyLighting(d, found.value.lighting, w.lights).lighting
      else
        && a.refusal == (if found.None? then Some(ProfileNotFound)
                         else if GateActivation(d.facts, found.value).Some? then GateActivation(d.facts, found.value)
                         else Some(Storage))
        && a.state == d.(config := a.state.config)
        && a.state.config == d.config
  {
    var found := Config.Find(Config.Offered(d.config.document), name);
    Config.FailureChangesNothing(d.config, Config.Activate(name), landed);
    if found.Some? && GateActivation(d.facts, found.value).None? && landed {
      var p := found.value;
      var chosen := d.(config := Config.Perform(d.config, Config.Activate(name), landed).0);
      PuttingBackAsks(chosen, p.lighting, p.display, Some(p.program), w);
      LightsIgnoreTheConfiguration(d, chosen, p.lighting, w.lights);
    }
  }

  lemma {:induction false} LightsIgnoreTheConfiguration(
      d: State, like: State, commands: seq<Lighting.Command>, lights: seq<LightWorld>)
    requires like.facts == d.facts && like.lighting == d.lighting
    ensures ApplyLighting(like, commands, lights).lighting == ApplyLighting(d, commands, lights).lighting
  {
    if commands != [] {
      LightsAlone(d, commands[..|commands| - 1], lights);
      LightsAlone(like, commands[..|commands| - 1], lights);
      LightsIgnoreTheConfiguration(d, like, commands[..|commands| - 1], lights);
    }
  }

  // ---------------------------------------------------------------- in their order

  predicate AreLights(memories: seq<Memory>) {
    forall k | 0 <= k < |memories| :: memories[k].Light?
  }

  /** What was confirmed is remembered in the order of the writes: the lights, the picture, the program. */
  lemma PuttingBackIsInOrder(
      d: State, lighting: seq<Lighting.Command>, preset: Option<Display.Preset>,
      program: Option<Profiles.Program>, w: World) returns (lights: seq<Memory>)
    ensures AreLights(lights)
    ensures var after := PutBack(d, lighting, preset, program, w).remembered;
      var pictured := if preset.Some? then [Picture(preset.value)] else [];
      var programmed := if program.Some? then [Program(program.value)] else [];
      after in {d.remembered + lights,
                d.remembered + lights + pictured,
                d.remembered + lights + programmed,
                d.remembered + lights + pictured + programmed}
  {
    lights := LightsRemember(d, lighting, w.lights);
    var lit := ApplyLighting(d, lighting, w.lights);
    if preset.Some? {
      PictureRemembers(lit, preset.value, w.panel);
    }
    if program.Some? {
      ProgramRemembers(ApplyDisplay(lit, preset, w.panel), program.value, w.cooling);
    }
  }

  lemma PictureRemembers(d: State, preset: Display.Preset, w: PanelWorld)
    ensures Show(d, preset, w).state.remembered in {d.remembered, d.remembered + [Picture(preset)]}
  {
  }

  lemma ProgramRemembers(d: State, program: Profiles.Program, w: CoolingWorld)
    ensures Execute(d, program, w).state.remembered in {d.remembered, d.remembered + [Program(program)]}
  {
  }

  lemma {:induction false} LightsRemember(d: State, commands: seq<Lighting.Command>, worlds: seq<LightWorld>)
      returns (lights: seq<Memory>)
    ensures AreLights(lights) && ApplyLighting(d, commands, worlds).remembered == d.remembered + lights
  {
    lights := [];
    if commands != [] {
      var n := |commands| - 1;
      var before := LightsRemember(d, commands[..n], worlds);
      var at, next := ApplyLighting(d, commands[..n], worlds), ApplyLighting(d, commands, worlds);
      var more := if next.remembered == at.remembered then [] else [Light(commands[n])];
      assert next.remembered == at.remembered + more;
      lights := before + more;
    }
  }

  // ---------------------------------------------------------------- the panel

  /** With a panel, a renderer that draws and a link that holds, a start ends with the picture of the session, or else
      of the profile, on the glass at its brightness. */
  lemma AStartShowsThePicture(m: Machine, w: World, preset: Display.Preset, picture: Display.Frame)
    requires m.drawn && MayShow(m.facts, preset) && !preset.UsesImage()
    requires var doc := Config.Load(m.file, m.renamed).document;
      SessionOver(doc.session.display, Config.ActiveProfile(doc).display) == Some(preset)
    requires w.panel.renderer.picture == Some(picture)
    requires w.panel.link == Display.Link(Display.Accepted, Display.Sent)
    ensures Start(m, w).display.panel == Display.Panel(Some(picture), Some(preset.brightness))
    ensures Start(m, w).display.executor.active == Some(preset)
  {
    AStartAsksForTheSession(m, w);
  }

  // ---------------------------------------------------------------- what is counted as sent

  /** A program counts as sent exactly when an attribute was attempted. */
  lemma AProgramCountsWhenWritten(d: State, program: Profiles.Program, w: CoolingWorld)
    ensures var next := Execute(d, program, w).state;
      next.sends == if next.cooling.board.log != d.cooling.board.log then d.sends + 1 else d.sends
  {
  }

  /** A lighting command exactly when a report was, by the record and the clock. */
  lemma ALightCountsWhenSent(d: State, c: Lighting.Command, w: LightWorld)
    ensures var ex := d.lighting.executor;
      var held := c.channel in ex.committed && ex.committed[c.channel] == c.program;
      var due := c.channel !in ex.lastSent || w.now - ex.lastSent[c.channel] >= Lighting.MIN_COMMAND_INTERVAL;
      Illuminate(d, c, w).state.sends ==
        if GateLighting(d.facts, c).None? && !held && due && ex.connected then d.sends + 1 else d.sends
  {
    Lighting.SentExactlyWhen(d.lighting.executor, d.lighting.controller, w.now, c, w.link);
  }

  /** And a picture exactly when one was offered to the link. */
  lemma APictureCountsWhenOffered(d: State, preset: Display.Preset, w: PanelWorld)
    ensures Show(d, preset, w).state.sends ==
      if GateDisplay(d.facts, preset).None? && Display.Offered(d.display, Offering(preset, w)).Some?
      then d.sends + 1 else d.sends
  {
  }
}
