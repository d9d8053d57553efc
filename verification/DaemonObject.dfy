/**
 The daemon as the object it is: one state behind one mutex, over the three executors, the
 configuration and the collector-health log. Each method is tied to the function in `Daemon` that says
 what it does, and each keeps what `Daemon` proves of every run. Models crates/daemon/src/state.rs.
 */
module DaemonObject {
  import opened Basics
  import Spec = Daemon
  import Profiles
  import Control
  import Cooling
  import CoolingRuns
  import CoolingWriter
  import Lighting
  import LightingWriter
  import Display
  import DisplayWriter
  import Config
  import ConfigStore
  import Health
  import Starting

  class Daemon {
    const facts: Spec.Facts
    const config: ConfigStore.Configuration
    const cooling: CoolingWriter.CoolingExecutor
    const lighting: LightingWriter.LightingExecutor
    const display: DisplayWriter.DisplayExecutor
    const panel: DisplayWriter.LcdLink
    const health: Health.HealthLog

    /** What the start was given, and the histories the properties speak of. */
    ghost const origin: Spec.Machine
    ghost var cooled: seq<CoolingRuns.Event>
    ghost var remembered: seq<Spec.Memory>
    ghost var sends: nat

    /** The daemon as a value. */
    ghost function Value(): Spec.State
      reads this, config, cooling, cooling.hwmon, lighting, display, panel
      requires Display.Playable(display.Value())
    {
      Spec.State(
        facts, config.Value(),
        CoolingRuns.System(cooling.Value(), cooling.hwmon.Board()),
        Lighting.System(lighting.Value(), lighting.controller),
        Display.Pair(display.Value(), panel.panel),
        cooled, remembered, sends)
    }

    /** The objects fit together. */
    ghost predicate Wired()
      reads cooling, display
    {
      && cooling.Valid()
      && (display.link == null || display.link == panel)
      && Display.Playable(display.Value())
    }

    /** The objects fit together, and the state is one a run from `origin` can reach. */
    ghost predicate Valid()
      reads this, config, cooling, cooling.hwmon, lighting, display, panel, health
    {
      Wired() && health.Valid() && Spec.Kept(origin, Value())
    }

    /** Gate a cooling program, then write it, then remember it if the device confirmed it. */
    method Execute(program: Profiles.Program, w: Spec.CoolingWorld)
      returns (outcome: Cooling.ApplyOutcome, refusal: Option<Spec.Refusal>)
      requires Wired()
      modifies this`cooled, this`remembered, this`sends, config, cooling, cooling.hwmon
      ensures Wired()
      ensures Spec.Answered(Value(), refusal) == Spec.Execute(old(Value()), program, w)
      ensures outcome ==
        if refusal.Some? then Cooling.Untouched(Cooling.NotApplied)
        else CoolingRuns.Asked(old(Value()).cooling,
                               CoolingRuns.Request(w.now, w.wall, program, w.bound, w.machine, w.faults)).outcome
    {
      outcome := Cooling.Untouched(Cooling.NotApplied);
      if Profiles.ValidateProgram(program).Refused? {
        return outcome, Some(Spec.Validation);
      }
      if !program.Onboard? {
        if facts.kraken.None? {
          return outcome, Some(Spec.NoDevice);
        }
        if !Spec.Compatible(program, facts.kraken.value) {
          return outcome, Some(Spec.Incompatible);
        }
        if Spec.ReadOnly(facts) {
          return outcome, Some(Spec.ReadOnlyMode);
        }
      }
      outcome := Cool(program, w);
      refusal := None;
      if !program.Onboard? && outcome.hardware.Confirmed? {
        Remember(Config.RecordProgram(program), Spec.Program(program), w.landed);
      }
    }

    /** The executor call itself, in the world it meets. */
    method Cool(program: Profiles.Program, w: Spec.CoolingWorld) returns (outcome: Cooling.ApplyOutcome)
      requires Wired()
      modifies this`cooled, this`sends, cooling, cooling.hwmon
      ensures Wired()
      ensures var e := CoolingRuns.Request(w.now, w.wall, program, w.bound, w.machine, w.faults);
        && Value() == Spec.Cooled(old(Value()), e)
        && outcome == CoolingRuns.Asked(old(Value()).cooling, e).outcome
    {
      ghost var before := cooling.hwmon.log;
      outcome := Reach(program, w);
      cooled := cooled + [CoolingRuns.Request(w.now, w.wall, program, w.bound, w.machine, w.faults)];
      sends := sends + if cooling.hwmon.log != before then 1 else 0;
    }

    method Reach(program: Profiles.Program, w: Spec.CoolingWorld) returns (outcome: Cooling.ApplyOutcome)
      requires cooling.Valid()
      modifies cooling, cooling.hwmon
      ensures cooling.Valid()
      ensures var before := old(CoolingRuns.System(cooling.Value(), cooling.hwmon.Board()));
        var e := CoolingRuns.Request(w.now, w.wall, program, w.bound, w.machine, w.faults);
        && CoolingRuns.System(cooling.Value(), cooling.hwmon.Board()) == CoolingRuns.Step(before, e)
        && outcome == CoolingRuns.Asked(before, e).outcome
    {
      cooling.hwmon.machine := w.machine;
      cooling.hwmon.faults := w.faults;
      outcome := cooling.Apply(w.bound, w.now, w.wall, program);
    }

    /** Persist a confirmed command without letting the disk speak for the hardware. */
    method Remember(op: Config.Operation, ghost memory: Spec.Memory, landed: bool)
      requires Wired() && Spec.Records(op, memory)
      modifies this`remembered, config
      ensures Wired() && Value() == Spec.Remember(old(Value()), op, memory, landed)
    {
      var error;
      match op {
        case RecordProgram(program) => error := config.RecordProgram(program, landed);
        case RecordLighting(command) => error := config.RecordLighting(command, landed);
        case RecordDisplay(preset) => error := config.RecordDisplay(preset, landed);
      }
      if error.None? {
        remembered := remembered + [memory];
      }
    }

    /** Gate a lighting command, then send it, then remember it if it was confirmed. */
    method Illuminate(command: Lighting.Command, w: Spec.LightWorld)
      returns (outcome: Lighting.Outcome, refusal: Option<Spec.Refusal>)
      requires Wired()
      modifies this`remembered, this`sends, config, lighting
      ensures Wired()
      ensures Spec.Answered(Value(), refusal) == Spec.Illuminate(old(Value()), command, w)
      ensures outcome ==
        if refusal.Some? then Lighting.Answer(Lighting.NotApplied, 0)
        else Lighting.Apply(old(lighting.Value()), old(lighting.controller), w.now, command, w.link).outcome
    {
      if command.channel == 0 || command.channel > facts.rgbChannels || !command.program.WellFormed() {
        return Lighting.Answer(Lighting.NotApplied, 0), Some(Spec.Validation);
      }
      if facts.rgb.None? {
        return Lighting.Answer(Lighting.NotApplied, 0), Some(Spec.NoDevice);
      }
      var needed := if command.program.Effect? then Spec.RgbEffects else Spec.RgbFixedColor;
      if !Spec.CanWrite(facts.rgb.value, needed) {
        return Lighting.Answer(Lighting.NotApplied, 0), Some(Spec.Incompatible);
      }
      if Spec.ReadOnly(facts) {
        return Lighting.Answer(Lighting.NotApplied, 0), Some(Spec.ReadOnlyMode);
      }
      outcome := Light(command, w);
      if outcome.hardware.Confirmed? {
        Remember(Config.RecordLighting(command), Spec.Light(command), w.landed);
      }
      refusal := None;
    }

    /** The lighting executor call itself, in the world it meets. */
    method Light(command: Lighting.Command, w: Spec.LightWorld) returns (outcome: Lighting.Outcome)
      requires Wired()
      modifies this`sends, lighting
      ensures Wired()
      ensures Value() == Spec.Lit(old(Value()), command, w)
      ensures outcome == Lighting.Apply(old(lighting.Value()), old(lighting.controller), w.now, command, w.link).outcome
    {
      sends := sends + if Lighting.Sends(lighting.Value(), w.now, command) then 1 else 0;
      outcome := lighting.Apply(w.now, command, w.link);
    }

    /** Gate a preset, then render and send it, then remember it if it was confirmed. */
    method Show(preset: Display.Preset, w: Spec.PanelWorld)
      returns (outcome: Option<Display.Outcome>, refusal: Option<Spec.Refusal>)
      requires Wired()
      modifies this`remembered, this`sends, config, display, panel
      ensures Wired()
      ensures Spec.Answered(Value(), refusal) == Spec.Show(old(Value()), preset, w)
      ensures var shown := Display.Apply(old(Value()).display.executor, old(Value()).display.panel,
                                         preset, w.renderer, w.link, w.now);
        outcome == if refusal.None? && shown.Some? then Some(shown.value.outcome) else None
    {
      if !preset.wellFormed {
        return None, Some(Spec.Validation);
      }
      if facts.kraken.None? {
        return None, Some(Spec.NoDevice);
      }
      if !Spec.CanWrite(facts.kraken.value, Spec.LcdFrame) || !Spec.CanWrite(facts.kraken.value, Spec.LcdDisplayControl) {
        return None, Some(Spec.Incompatible);
      }
      if Spec.ReadOnly(facts) {
        return None, Some(Spec.ReadOnlyMode);
      }
      outcome := Draw(preset, w);
      if outcome.None? {
        return None, Some(Spec.Unrendered);
      }
      if outcome.value.hardware.Confirmed? {
        Remember(Config.RecordDisplay(preset), Spec.Picture(preset), w.landed);
      }
      refusal := None;
    }

    /** The panel executor call itself, in the world it meets. */
    method Draw(preset: Display.Preset, w: Spec.PanelWorld) returns (outcome: Option<Display.Outcome>)
      requires Wired()
      modifies this`sends, display, panel
      ensures Wired()
      ensures Value() == Spec.Displayed(old(Value()), Display.Applied(preset, w.renderer, w.link, w.now))
      ensures var shown := Display.Apply(old(Value()).display.executor, old(Value()).display.panel,
                                         preset, w.renderer, w.link, w.now);
        outcome == if shown.None? then None else Some(shown.value.outcome)
    {
      sends := sends + if Display.Offered(Display.Pair(display.Value(), panel.panel),
                                          Display.Applied(preset, w.renderer, w.link, w.now)).Some? then 1 else 0;
      panel.next := w.link;
      outcome := display.Apply(preset, w.renderer, w.now);
    }
 
    /** Put every lighting channel where it is wanted; a refused one does not stop the rest. */
    method ApplyLighting(commands: seq<Lighting.Command>, lights: seq<Spec.LightWorld>)
      requires Wired()
      modifies this`remembered, this`sends, config, lighting
      ensures Wired()
      ensures Value() == Spec.ApplyLighting(old(Value()), commands, lights)
    {
      for i := 0 to |commands|
        invariant Wired()
        invariant Value() == Spec.ApplyLighting(old(Value()), commands[..i], lights)
      {
        assert commands[..i + 1][..i] == commands[..i];
        var _, _ := Illuminate(commands[i], Spec.LightAt(lights, i));
      }
      assert commands[..|commands|] == commands;
    }

    /** The three writes of an activation and of a start, in their order. */
    method PutBack(lighting: seq<Lighting.Command>, preset: Option<Display.Preset>,
                   program: Option<Profiles.Program>, w: Spec.World)
      returns (applied: Option<Cooling.ApplyOutcome>)
      requires Wired()
      modifies this, config, cooling, cooling.hwmon, this.lighting, display, panel
      ensures Wired()
      ensures Value() == Spec.PutBack(old(Value()), lighting, preset, program, w)
      ensures applied == if program.None? then None else Some(Starting.Answer(old(Value()), program.value, w.cooling))
    {
      Starting.LightsAlone(Value(), lighting, w.lights);
      applied := None;
      ApplyLighting(lighting, w.lights);
      if preset.Some? {
        Starting.PictureAlone(Value(), preset.value, w.panel);
        var _, _ := Show(preset.value, w.panel);
      }
      if program.Some? {
        var outcome, _ := Execute(program.value, w.cooling);
        applied := Some(outcome);
      }
    }

    /** Open everything, with nothing on record and nothing written. */
    constructor Boot(m: Spec.Machine, answers: Cooling.Machine)
      ensures Wired() && health.Valid() && origin == m
      ensures fresh(config) && fresh(cooling) && fresh(cooling.hwmon) && fresh(lighting) && fresh(display) && fresh(panel)
      ensures Value() == Spec.Boot(m)
    {
      facts, origin := m.facts, m;
      config := new ConfigStore.Configuration.Load(m.file, m.renamed);
      var hwmon := new CoolingWriter.KrakenHwmon(m.board, answers);
      cooling := new CoolingWriter.CoolingExecutor.Open(hwmon, m.bound);
      lighting := new LightingWriter.LightingExecutor(m.lit, m.controller);
      var link := new DisplayWriter.LcdLink(m.panel, Display.Link(Display.Accepted, Display.Sent));
      panel := link;
      display := new DisplayWriter.DisplayExecutor(if m.drawn then link else null);
      health := new Health.HealthLog();
      cooled, remembered, sends := [], [], 0;
    }

    /** Start over whatever the file and the hardware hold, and put the session back. */
    static method Start(m: Spec.Machine, w: Spec.World) returns (d: Daemon)
      ensures fresh(d) && d.Valid() && d.origin == m
      ensures d.Value() == Spec.Start(m, w)
    {
      d := new Daemon.Boot(m, w.cooling.machine);
      d.RestoreActiveProfile(w);
      StartIsKept(m, w);
    }

    /** What the operator last put on the hardware outranks what the profile was saved with. */
    method RestoreActiveProfile(w: Spec.World)
      requires Wired()
      modifies this, config, cooling, cooling.hwmon, lighting, display, panel
      ensures Wired()
      ensures var doc := old(Value()).config.document;
        var held := Config.RestoredProgram(doc);
        Value() == Spec.PutBack(old(Value()), Config.LightingToRestore(doc), Config.RestoredDisplay(doc),
                                if held.Some? then Some(held.value.program) else None, w)
    {
      var commands := config.LightingToRestore();
      var preset := Config.RestoredDisplay(config.document);
      var held := Config.RestoredProgram(config.document);
      var _ := PutBack(commands, preset, if held.Some? then Some(held.value.program) else None, w);
    }

    /** Persist the selection first, then write what the profile holds. */
    method ActivateProfile(name: string, landed: bool, w: Spec.World)
      returns (applied: Option<Cooling.ApplyOutcome>, refusal: Option<Spec.Refusal>)
      requires Wired()
      modifies this, config, cooling, cooling.hwmon, lighting, display, panel
      ensures Wired()
      ensures Spec.Answered(Value(), refusal) == Spec.ActivateProfile(old(Value()), name, landed, w)
      ensures var found := Config.Find(Config.Offered(old(Value()).config.document), name);
        applied == if refusal.Some? || found.None? then None
                   else Some(Starting.Answer(old(Value()), found.value.program, w.cooling))
    {
      var found := Config.Find(Config.Offered(config.document), name);
      if found.None? {
        return None, Some(Spec.ProfileNotFound);
      }
      var gate := Spec.GateActivation(facts, found.value);
      if gate.Some? {
        return None, gate;
      }
      var error := Choose(Config.Activate(name), landed);
      if error.Some? {
        return None, Some(Spec.Storage);
      }
      applied := PutBack(found.value.lighting, found.value.display, Some(found.value.program), w);
      refusal := None;
    }

    /** A change of the configuration that reaches no device. */
    method Choose(op: Config.Operation, landed: bool) returns (error: Option<Config.Error>)
      requires Wired() && (op.Save? || op.Delete? || op.Activate?)
      modifies config
      ensures Wired()
      ensures var (after, answer) := Config.Perform(old(Value()).config, op, landed);
        Value() == old(Value()).(config := after) && error == answer
    {
      match op {
        case Save(p) => error := config.SaveProfile(p, landed);
        case Delete(name) =>
          var instead;
          error, instead := config.DeleteProfile(name, landed);
        case Activate(name) => error := config.Activate(name, landed);
      }
    }

    /** Bring the record of the hardware back in line with a sample. A device found absent comes back in
        whatever state it likes. */
    method Reconcile(present: bool, pump: Control.Cell, fan: Control.Cell, glass: Display.Panel,
                     kraken: CoolingRuns.Kraken, wall: nat, failed: seq<Health.Fault>)
      requires Wired() && health.Valid()
      modifies this`cooled, cooling, cooling.hwmon, display, panel, health
      ensures Wired() && health.Valid() && health.reported == Health.Failing(failed)
      ensures Value() ==
        if present then Spec.Cooled(old(Value()), CoolingRuns.Check(kraken, wall))
        else Spec.Displayed(Spec.Cooled(old(Value()), CoolingRuns.Reconnect(pump, fan)), Display.Reconnected(glass))
    {
      if !present {
        Lose(pump, fan, glass);
      } else {
        var _ := cooling.VerifyCurves(kraken, wall);
        cooled := cooled + [CoolingRuns.Check(kraken, wall)];
      }
      var _ := health.Record(failed);
    }

    /** The device has gone away, and nothing that was true of it need be true when it is back. */
    method Lose(pump: Control.Cell, fan: Control.Cell, glass: Display.Panel)
      requires Wired()
      modifies this`cooled, cooling, cooling.hwmon, display, panel
      ensures Wired()
      ensures Value() ==
        Spec.Displayed(Spec.Cooled(old(Value()), CoolingRuns.Reconnect(pump, fan)), Display.Reconnected(glass))
    {
      cooling.Forget();
      display.Forget();
      cooling.hwmon.pump, cooling.hwmon.fan := pump, fan;
      panel.panel := glass;
      cooled := cooled + [CoolingRuns.Reconnect(pump, fan)];
    }

    /** The once-a-second pass: settle what the hardware says, then redraw. */
    method Tick(present: bool, pump: Control.Cell, fan: Control.Cell, glass: Display.Panel,
                kraken: CoolingRuns.Kraken, wall: nat, failed: seq<Health.Fault>, w: Spec.PanelWorld)
      requires Wired() && health.Valid()
      modifies this`cooled, this`sends, cooling, cooling.hwmon, display, panel, health
      ensures Wired() && health.Valid() && health.reported == Health.Failing(failed)
      ensures Value() == Spec.Tick(old(Value()), present, pump, fan, glass, kraken, wall, w)
    {
      Reconcile(present, pump, fan, glass, kraken, wall, failed);
      if !present {
        return;
      }
      Redraw(w);
    }

    method Redraw(w: Spec.PanelWorld)
      requires Wired()
      modifies this`sends, display, panel
      ensures Wired()
      ensures Value() == Spec.Displayed(old(Value()), Display.Refreshed(w.renderer, w.link))
    {
      sends := sends + if Display.Offered(Display.Pair(display.Value(), panel.panel),
                                          Display.Refreshed(w.renderer, w.link)).Some? then 1 else 0;
      panel.next := w.link;
      var _ := display.Refresh(w.renderer);
    }

    /** Advance a playing animation, and say when its next frame is due. */
    method TickAnimation(now: Instant, link: Display.Link) returns (due: Option<Instant>)
      requires Wired()
      modifies this`sends, display, panel
      ensures Wired()
      ensures Value() == Spec.Displayed(old(Value()), Display.Advanced(link, now))
      ensures due == Display.Advance(old(Value()).display.executor, old(Value()).display.panel, link, now).2
    {
      sends := sends + if Display.Offered(Display.Pair(display.Value(), panel.panel),
                                          Display.Advanced(link, now)).Some? then 1 else 0;
      panel.next := link;
      ghost var system := Display.Pair(display.Value(), panel.panel);
      Display.AdvancingIsAStep(system, link, now);
      due := display.AdvanceAnimation(now);
      assert Display.Step(system, Display.Advanced(link, now)) == Display.Pair(display.Value(), panel.panel);
    }

    method DropDisplayFrame()
      requires Wired()
      modifies this`sends, display
      ensures Wired()
      ensures Value() == Spec.Displayed(old(Value()), Display.Dropped)
    {
      display.DropFrame();
    }

    /** One request or one tick, with the mutex held. Whatever it is and however it ends, what is proved
        of every run holds of the object afterwards. */
    method Handle(r: Spec.Request, failed: seq<Health.Fault>)
      requires Valid()
      modifies this, config, cooling, cooling.hwmon, lighting, display, panel, health
      ensures Valid()
      ensures Value() == Spec.Handle(old(Value()), r)
    {
      Spec.HandlingKeeps(origin, Value(), r);
      if IsTick(r) {
        Clock(r, failed);
      } else {
        Dispatch(r);
      }
    }

    predicate IsTick(r: Spec.Request) {
      r.Ticked? || r.TickedAnimation? || r.DroppedFrame?
    }

    /** What a client asked for. */
    method Dispatch(r: Spec.Request)
      requires Wired() && !IsTick(r)
      modifies this, config, cooling, cooling.hwmon, lighting, display, panel
      ensures Wired() && Value() == Spec.Handle(old(Value()), r)
    {
      match r {
        case ApplyProgram(program, w) => var _, _ := Execute(program, w);
        case ApplyLight(command, w) => var _, _ := Illuminate(command, w);
        case ApplyPicture(preset, w) => var _, _ := Show(preset, w);
        case SaveProfile(profile, landed) => var _ := Choose(Config.Save(profile), landed);
        case DeleteProfile(name, landed) => var _ := Choose(Config.Delete(name), landed);
        case Activate(name, landed, w) => var _, _ := ActivateProfile(name, landed, w);
      }
    }

    /** What the daemon's own clock asks for. */
    method Clock(r: Spec.Request, failed: seq<Health.Fault>)
      requires Wired() && health.Valid() && IsTick(r)
      modifies this`cooled, this`sends, cooling, cooling.hwmon, display, panel, health
      ensures Wired() && health.Valid() && Value() == Spec.Handle(old(Value()), r)
    {
      match r {
        case Ticked(present, pump, fan, glass, kraken, wall, w) =>
          Tick(present, pump, fan, glass, kraken, wall, failed, w);
        case TickedAnimation(now, link) => var _ := TickAnimation(now, link);
        case DroppedFrame => DropDisplayFrame();
      }
    }
  }

  lemma StartIsKept(m: Spec.Machine, w: Spec.World)
    ensures Spec.Kept(m, Spec.Start(m, w))
  {
    Spec.EveryRunKeeps(m, w, []);
  }
}
