/**
 The daemon over its three executors and its configuration: the gates in front of every write, what
 is remembered of a confirmed one, and what a restart puts back. Models crates/daemon/src/state.rs.
 */
module Daemon {
  import opened Basics
  import Profiles
  import Control
  import Cooling
  import CoolingRuns
  import Lighting
  import Display
  import Config

  // ---------------------------------------------------------------- the gates

  datatype Capability =
    | PumpDuty | FanDuty | PumpCurve | FanCurve | RgbFixedColor | RgbEffects | LcdFrame | LcdDisplayControl

  /** The capability record of one supported device: what it has, and whether that is writable. */
  type Record = map<Capability, bool>

  /** What a start settles for the life of the daemon: who else holds a device, which supported
      devices are there, how many lighting channels answered. */
  datatype Facts = Facts(conflicted: bool, kraken: Option<Record>, rgb: Option<Record>, rgbChannels: byte)

  predicate CanWrite(r: Record, c: Capability) {
    c in r && r[c]
  }

  predicate AnyWritable(r: Option<Record>) {
    r.Some? && exists c | c in r.value :: r.value[c]
  }

  /** A conflict, or nothing writable, makes the daemon read-only. */
  predicate ReadOnly(f: Facts) {
    f.conflicted || !(AnyWritable(f.kraken) || AnyWritable(f.rgb))
  }

  datatype Refusal = Validation | NoDevice | Incompatible | ReadOnlyMode | ProfileNotFound | Storage | Unrendered

  function Required(program: Profiles.Program): set<Capability> {
    match program
    case Onboard => {}
    case Fixed(_, _) => {PumpDuty, FanDuty}
    case Curve(_, _) => {PumpCurve, FanCurve}
  }

  predicate Compatible(program: Profiles.Program, r: Record) {
    forall c | c in Required(program) :: CanWrite(r, c)
  }

  /** Values, then the program nothing refuses, then the device, the capabilities, the ownership. */
  function GateProgram(f: Facts, program: Profiles.Program): Option<Refusal> {
    if Profiles.ValidateProgram(program).Refused? then Some(Validation)
    else if program.Onboard? then None
    else if f.kraken.None? then Some(NoDevice)
    else if !Compatible(program, f.kraken.value) then Some(Incompatible)
    else if ReadOnly(f) then Some(ReadOnlyMode)
    else None
  }

  function GateLighting(f: Facts, c: Lighting.Command): Option<Refusal> {
    if c.channel == 0 || c.channel > f.rgbChannels || !c.program.WellFormed() then Some(Validation)
    else if f.rgb.None? then Some(NoDevice)
    else if !CanWrite(f.rgb.value, if c.program.Effect? then RgbEffects else RgbFixedColor) then Some(Incompatible)
    else if ReadOnly(f) then Some(ReadOnlyMode)
    else None
  }

  function GateDisplay(f: Facts, preset: Display.Preset): Option<Refusal> {
    if !preset.wellFormed then Some(Validation)
    else if f.kraken.None? then Some(NoDevice)
    else if !CanWrite(f.kraken.value, LcdFrame) || !CanWrite(f.kraken.value, LcdDisplayControl) then Some(Incompatible)
    else if ReadOnly(f) then Some(ReadOnlyMode)
    else None
  }

  // ---------------------------------------------------------------- what the gates let through

  /** The device is there and its record carries the capability as writable. */
  predicate Writable(r: Option<Record>, c: Capability) {
    r.Some? && c in r.value && r.value[c]
  }

  /** What a program needs of the cooler, kind by kind. */
  predicate CoolerTakes(r: Option<Record>, program: Profiles.Program) {
    match program
    case Onboard => true
    case Fixed(_, _) => Writable(r, PumpDuty) && Writable(r, FanDuty)
    case Curve(_, _) => Writable(r, PumpCurve) && Writable(r, FanCurve)
  }

  /** Nobody else holds a device and every value and capability is in order: exactly then a program passes.
      Each refusal names the first thing in its way. */
  lemma ProgramPassesExactlyWhen(f: Facts, program: Profiles.Program)
    ensures var safe := Profiles.ProgramIsSafe(program);
      var asked := safe && !program.Onboard?;
      var gate := GateProgram(f, program);
      && (gate == None <==> safe && (program.Onboard? || (CoolerTakes(f.kraken, program) && !f.conflicted)))
      && (gate == Some(Validation) <==> !safe)
      && (gate == Some(NoDevice) <==> asked && f.kraken.None?)
      && (gate == Some(Incompatible) <==> asked && f.kraken.Some? && !CoolerTakes(f.kraken, program))
      && (gate == Some(ReadOnlyMode) <==> asked && CoolerTakes(f.kraken, program) && f.conflicted)
  {
    Profiles.ProgramValidationIsExact(program);
    if !program.Onboard? && f.kraken.Some? {
      TakesIsWritable(f.kraken, program);
    }
  }

  lemma LightPassesExactlyWhen(f: Facts, c: Lighting.Command)
    ensures var needed := if c.program.Effect? then RgbEffects else RgbFixedColor;
      var valid := 1 <= c.channel <= f.rgbChannels && c.program.WellFormed();
      var gate := GateLighting(f, c);
      && (gate == None <==> valid && Writable(f.rgb, needed) && !f.conflicted)
      && (gate == Some(Validation) <==> !valid)
      && (gate == Some(NoDevice) <==> valid && f.rgb.None?)
      && (gate == Some(ReadOnlyMode) <==> valid && Writable(f.rgb, needed) && f.conflicted)
  {
    var needed := if c.program.Effect? then RgbEffects else RgbFixedColor;
    if Writable(f.rgb, needed) {
      assert needed in f.rgb.value && f.rgb.value[needed];
    }
  }

  lemma PicturePassesExactlyWhen(f: Facts, preset: Display.Preset)
    ensures var takes := Writable(f.kraken, LcdFrame) && Writable(f.kraken, LcdDisplayControl);
      var gate := GateDisplay(f, preset);
      && (gate == None <==> preset.wellFormed && takes && !f.conflicted)
      && (gate == Some(Validation) <==> !preset.wellFormed)
      && (gate == Some(NoDevice) <==> preset.wellFormed && f.kraken.None?)
      && (gate == Some(ReadOnlyMode) <==> preset.wellFormed && takes && f.conflicted)
  {
    if Writable(f.kraken, LcdFrame) {
      assert LcdFrame in f.kraken.value && f.kraken.value[LcdFrame];
    }
  }

  /** Someone else holds a device: the daemon is read-only, whatever its records carry. */
  lemma AConflictIsReadOnly(f: Facts)
    requires f.conflicted
    ensures ReadOnly(f)
  {
  }

  lemma NothingWritableIsReadOnly(f: Facts)
    requires forall c: Capability :: !Writable(f.kraken, c) && !Writable(f.rgb, c)
    ensures ReadOnly(f)
  {
    if AnyWritable(f.kraken) {
      var c :| c in f.kraken.value && f.kraken.value[c];
      assert Writable(f.kraken, c);
    }
    if AnyWritable(f.rgb) {
      var c :| c in f.rgb.value && f.rgb.value[c];
      assert Writable(f.rgb, c);
    }
  }

  // ---------------------------------------------------------------- the daemon

  /** What one confirmed command left in the session record. */
  datatype Memory =
    | Program(program: Profiles.Program)
    | Light(command: Lighting.Command)
    | Picture(preset: Display.Preset)

  /** One daemon, the hardware behind it, and two histories: every event its cooling executor has
      been through, and everything it managed to remember. `sends` counts the transfers it attempted. */
  datatype State = State(
    facts: Facts, config: Config.Configuration,
    cooling: CoolingRuns.System, lighting: Lighting.System, display: Display.System,
    cooled: seq<CoolingRuns.Event>, remembered: seq<Memory>, sends: nat)

  /** What the world answers while one command runs; `landed` is whether the disk takes its record. */
  datatype CoolingWorld = CoolingWorld(
    now: Instant, wall: nat, bound: bool, machine: Cooling.Machine, faults: seq<Control.Fault>, landed: bool)
  datatype LightWorld = LightWorld(now: Instant, link: Lighting.Link, landed: bool)
  datatype PanelWorld = PanelWorld(now: Instant, renderer: Display.Renderer, link: Display.Link, landed: bool)

  datatype World = World(cooling: CoolingWorld, lights: seq<LightWorld>, panel: PanelWorld)

  function LightAt(lights: seq<LightWorld>, i: nat): LightWorld {
    if i < |lights| then lights[i] else LightWorld(0, Lighting.Sent, true)
  }

  /** Persist a confirmed command. A disk that refuses leaves the record as it was. */
  function Remember(d: State, op: Config.Operation, memory: Memory, landed: bool): State {
    var (config, error) := Config.Perform(d.config, op, landed);
    if error.Some? then d.(config := config)
    else d.(config := config, remembered := d.remembered + [memory])
  }

  /** What is remembered of a command the executor answered. */
  function Concluded(d: State, confirmed: bool, op: Config.Operation, memory: Memory, landed: bool): State {
    if confirmed then Remember(d, op, memory, landed) else d
  }

  function Cooled(d: State, e: CoolingRuns.Event): State {
    var next := CoolingRuns.Step(d.cooling, e);
    d.(cooling := next, cooled := d.cooled + [e],
       sends := d.sends + if next.board.log != d.cooling.board.log then 1 else 0)
  }

  datatype Answered = Answered(state: State, refusal: Option<Refusal>)

  function Execute(d: State, program: Profiles.Program, w: CoolingWorld): Answered {
    var gate := GateProgram(d.facts, program);
    if gate.Some? then Answered(d, gate) else
    var e := CoolingRuns.Request(w.now, w.wall, program, w.bound, w.machine, w.faults);
    var confirmed := !program.Onboard? && CoolingRuns.Asked(d.cooling, e).outcome.hardware.Confirmed?;
    Answered(Concluded(Cooled(d, e), confirmed, Config.RecordProgram(program), Program(program), w.landed), None)
  }

  function Lit(d: State, c: Lighting.Command, w: LightWorld): State {
    var lit := Lighting.Apply(d.lighting.executor, d.lighting.controller, w.now, c, w.link);
    d.(lighting := Lighting.System(lit.executor, lit.controller),
       sends := d.sends + if Lighting.Sends(d.lighting.executor, w.now, c) then 1 else 0)
  }

  function Illuminate(d: State, c: Lighting.Command, w: LightWorld): Answered {
    var gate := GateLighting(d.facts, c);
    if gate.Some? then Answered(d, gate) else
    var lit := Lighting.Apply(d.lighting.executor, d.lighting.controller, w.now, c, w.link);
    Answered(Concluded(Lit(d, c, w), lit.outcome.hardware.Confirmed?, Config.RecordLighting(c), Light(c), w.landed), None)
  }

  function Displayed(d: State, e: Display.Event): State {
    d.(display := Display.Step(d.display, e),
       sends := d.sends + if Display.Offered(d.display, e).Some? then 1 else 0)
  }

  function Show(d: State, preset: Display.Preset, w: PanelWorld): Answered {
    var gate := GateDisplay(d.facts, preset);
    if gate.Some? then Answered(d, gate) else
    var shown := Display.Apply(d.display.executor, d.display.panel, preset, w.renderer, w.link, w.now);
    var wrote := Displayed(d, Display.Applied(preset, w.renderer, w.link, w.now));
    if shown.None? then Answered(wrote, Some(Unrendered))
    else
      Answered(Concluded(wrote, shown.value.outcome.hardware.Confirmed?, Config.RecordDisplay(preset),
                         Picture(preset), w.landed), None)
  }

  /** Each command in turn; a refused one does not stop the rest. */
  function ApplyLighting(d: State, commands: seq<Lighting.Command>, lights: seq<LightWorld>): State {
    if commands == [] then d else
    var before := ApplyLighting(d, commands[..|commands| - 1], lights);
    Illuminate(before, commands[|commands| - 1], LightAt(lights, |commands| - 1)).state
  }

  function ApplyDisplay(d: State, preset: Option<Display.Preset>, w: PanelWorld): State {
    if preset.None? then d else Show(d, preset.value, w).state
  }

  /** The three writes of an activation and of a start, in their order. */
  function PutBack(
      d: State, lighting: seq<Lighting.Command>, preset: Option<Display.Preset>,
      program: Option<Profiles.Program>, w: World): State
  {
    var shown := ApplyDisplay(ApplyLighting(d, lighting, w.lights), preset, w.panel);
    if program.None? then shown else Execute(shown, program.value, w.cooling).state
  }

  predicate Targets(p: Config.Profile, id: Config.DeviceId, r: Option<Record>) {
    r.Some? &&
    match p.device
    case Some(pinned) => pinned == id
    case None => exists c | c in Required(p.program) :: c in r.value
  }

  function GateActivation(f: Facts, p: Config.Profile): Option<Refusal> {
    if p.program.Onboard? then None
    else if !Targets(p, Config.KrakenBase, f.kraken) && !Targets(p, Config.RgbController, f.rgb) then Some(NoDevice)
    else if (Targets(p, Config.KrakenBase, f.kraken) && !Compatible(p.program, f.kraken.value))
            || (Targets(p, Config.RgbController, f.rgb) && !Compatible(p.program, f.rgb.value)) then Some(Incompatible)
    else if ReadOnly(f) then Some(ReadOnlyMode)
    else None
  }

  /** The record mentions, writable or not, something the program needs. */
  predicate Mentions(r: Record, program: Profiles.Program) {
    match program
    case Onboard => false
    case Fixed(_, _) => PumpDuty in r || FanDuty in r
    case Curve(_, _) => PumpCurve in r || FanCurve in r
  }

  /** The profile is for this device: pinned to it, or pinned to none and mentioned by its record. */
  predicate IsFor(p: Config.Profile, id: Config.DeviceId, r: Option<Record>) {
    r.Some? && (p.device == Some(id) || (p.device.None? && Mentions(r.value, p.program)))
  }

  /** A profile may become active exactly when it writes nothing, or some device is meant, every device meant
      takes its program and nobody else holds one. */
  lemma ProfilePassesExactlyWhen(f: Facts, p: Config.Profile)
    ensures var cooler, rgb := IsFor(p, Config.KrakenBase, f.kraken), IsFor(p, Config.RgbController, f.rgb);
      var gate := GateActivation(f, p);
      && (gate == None <==>
            || p.program.Onboard?
            || ((cooler || rgb) && (cooler ==> CoolerTakes(f.kraken, p.program))
                && (rgb ==> CoolerTakes(f.rgb, p.program)) && !f.conflicted))
      && (gate == Some(NoDevice) <==> !p.program.Onboard? && !cooler && !rgb)
      && (gate == Some(ReadOnlyMode) <==>
            !p.program.Onboard? && (cooler || rgb) && (cooler ==> CoolerTakes(f.kraken, p.program))
            && (rgb ==> CoolerTakes(f.rgb, p.program)) && f.conflicted)
  {
    if !p.program.Onboard? {
      IsForIsTargets(p, Config.KrakenBase, f.kraken);
      IsForIsTargets(p, Config.RgbController, f.rgb);
      if f.kraken.Some? { TakesIsWritable(f.kraken, p.program); }
      if f.rgb.Some? { TakesIsWritable(f.rgb, p.program); }
    }
  }

  lemma IsForIsTargets(p: Config.Profile, id: Config.DeviceId, r: Option<Record>)
    requires !p.program.Onboard?
    ensures Targets(p, id, r) <==> IsFor(p, id, r)
  {
    match p.program {
      case Onboard =>
      case Fixed(_, _) => assert PumpDuty in Required(p.program) && FanDuty in Required(p.program);
      case Curve(_, _) => assert PumpCurve in Required(p.program) && FanCurve in Required(p.program);
    }
  }

  lemma TakesIsWritable(r: Option<Record>, program: Profiles.Program)
    requires r.Some? && !program.Onboard?
    ensures CoolerTakes(r, program) <==> Compatible(program, r.value)
    ensures CoolerTakes(r, program) ==> AnyWritable(r)
  {
    match program {
      case Onboard =>
      case Fixed(_, _) => assert PumpDuty in Required(program) && FanDuty in Required(program);
      case Curve(_, _) => assert PumpCurve in Required(program) && FanCurve in Required(program);
    }
    if CoolerTakes(r, program) {
      var c := if program.Fixed? then PumpDuty else PumpCurve;
      assert c in r.value && r.value[c];
    }
  }

  function ActivateProfile(d: State, name: string, landed: bool, w: World): Answered {
    var found := Config.Find(Config.Offered(d.config.document), name);
    if found.None? then Answered(d, Some(ProfileNotFound)) else
    var gate := GateActivation(d.facts, found.value);
    if gate.Some? then Answered(d, gate) else
    var (config, error) := Config.Perform(d.config, Config.Activate(name), landed);
    if error.Some? then Answered(d.(config := config), Some(Storage)) else
    var p := found.value;
    Answered(PutBack(d.(config := config), p.lighting, p.display, Some(p.program), w), None)
  }

  /** The once-a-second pass: settle what the hardware says, then redraw. */
  function Tick(
      d: State, present: bool, pump: Control.Cell, fan: Control.Cell, panel: Display.Panel,
      kraken: CoolingRuns.Kraken, wall: nat, w: PanelWorld): State
  {
    if !present then
      Displayed(Cooled(d, CoolingRuns.Reconnect(pump, fan)), Display.Reconnected(panel))
    else
      Displayed(Cooled(d, CoolingRuns.Check(kraken, wall)), Display.Refreshed(w.renderer, w.link))
  }

  datatype Request =
    | ApplyProgram(program: Profiles.Program, cooling: CoolingWorld)
    | ApplyLight(command: Lighting.Command, light: LightWorld)
    | ApplyPicture(preset: Display.Preset, panelWorld: PanelWorld)
    | SaveProfile(profile: Config.Profile, landed: bool)
    | DeleteProfile(name: string, landed: bool)
    | Activate(name: string, landed: bool, world: World)
    | Ticked(present: bool, pump: Control.Cell, fan: Control.Cell, panel: Display.Panel,
             kraken: CoolingRuns.Kraken, wall: nat, panelWorld: PanelWorld)
    | TickedAnimation(now: Instant, link: Display.Link)
    | DroppedFrame

  function Handle(d: State, r: Request): State {
    match r
    case ApplyProgram(program, w) => Execute(d, program, w).state
    case ApplyLight(command, w) => Illuminate(d, command, w).state
    case ApplyPicture(preset, w) => Show(d, preset, w).state
    case SaveProfile(p, landed) => d.(config := Config.Perform(d.config, Config.Save(p), landed).0)
    case DeleteProfile(name, landed) => d.(config := Config.Perform(d.config, Config.Delete(name), landed).0)
    case Activate(name, landed, w) => ActivateProfile(d, name, landed, w).state
    case Ticked(present, pump, fan, panel, kraken, wall, w) => Tick(d, present, pump, fan, panel, kraken, wall, w)
    case TickedAnimation(now, link) => Displayed(d, Display.Advanced(link, now))
    case DroppedFrame => Displayed(d, Display.Dropped)
  }

  function Serve(d: State, requests: seq<Request>): State {
    if requests == [] then d
    else Handle(Serve(d, requests[..|requests| - 1]), requests[|requests| - 1])
  }

  /** What a start has to work with: the file, and the hardware as it stands. */
  datatype Machine = Machine(
    file: Config.File, renamed: bool, facts: Facts, board: Cooling.Board, bound: bool,
    controller: Lighting.Controller, lit: bool, panel: Display.Panel, drawn: bool)

  /** Before anything is put back: nothing on record anywhere. */
  function Boot(m: Machine): State {
    State(m.facts, Config.Load(m.file, m.renamed),
          CoolingRuns.System(Cooling.Executor(m.bound, map[], None), m.board),
          Lighting.System(Lighting.Executor(m.lit, map[], map[]), m.controller),
          Display.Pair(Display.ABSENT.(connected := m.drawn), m.panel),
          [], [], 0)
  }

  function Start(m: Machine, w: World): State {
    var d := Boot(m);
    var doc := d.config.document;
    var held := Config.RestoredProgram(doc);
    PutBack(d, Config.LightingToRestore(doc), Config.RestoredDisplay(doc),
            if held.Some? then Some(held.value.program) else None, w)
  }

  // ---------------------------------------------------------------- a property of every step

  /** What any single executor step may do to the state, seen from outside: the only ways the parts
      below ever change. A property kept by each is kept by every request. */
  ghost predicate Kept(m: Machine, d: State) {
    && d.facts == m.facts
    && Config.Reloadable(d.config)
    && CoolingIsARun(m, d)
    && MemoryIsTheSession(m, d)
    && (ReadOnly(m.facts) ==> Silent(m, d))
  }

  /** The cooling part went through nothing but validated requests, reconnections and checks. */
  ghost predicate CoolingIsARun(m: Machine, d: State) {
    && CoolingRuns.Admitted(d.cooled)
    && d.cooling == CoolingRuns.Run(Boot(m).cooling, d.cooled)
  }

  /** Nothing was ever sent: no attribute written, no lighting report made, no picture or brightness on
      record, and nothing set up that a tick could send. */
  ghost predicate Silent(m: Machine, d: State) {
    && d.sends == 0
    && d.cooling.board.log == m.board.log
    && d.lighting == Boot(m).lighting
    && d.display.executor.active.None? && d.display.executor.animation.None?
    && d.display.executor.committed.None? && d.display.executor.brightness.None?
  }

  function LastProgram(held: Option<Profiles.Program>, remembered: seq<Memory>): Option<Profiles.Program> {
    if remembered == [] then held else
    var last := remembered[|remembered| - 1];
    if last.Program? then Some(last.program) else LastProgram(held, remembered[..|remembered| - 1])
  }

  function LastPicture(held: Option<Display.Preset>, remembered: seq<Memory>): Option<Display.Preset> {
    if remembered == [] then held else
    var last := remembered[|remembered| - 1];
    if last.Picture? then Some(last.preset) else LastPicture(held, remembered[..|remembered| - 1])
  }

  function LastLights(held: map<byte, Lighting.Program>, remembered: seq<Memory>): map<byte, Lighting.Program> {
    if remembered == [] then held else
    var last := remembered[|remembered| - 1];
    var before := LastLights(held, remembered[..|remembered| - 1]);
    if last.Light? then before[last.command.channel := last.command.program] else before
  }

  /** The session record is what was last remembered of each kind, over what the file held. */
  ghost predicate MemoryIsTheSession(m: Machine, d: State) {
    var held, session := Config.Load(m.file, m.renamed).document.session, d.config.document.session;
    && session.program == LastProgram(held.program, d.remembered)
    && session.display == LastPicture(held.display, d.remembered)
    && Config.SessionMap(session.lighting) == LastLights(Config.SessionMap(held.lighting), d.remembered)
  }

  lemma {:induction false} RecordedMap(commands: seq<Lighting.Command>, c: Lighting.Command)
    ensures Config.SessionMap(Config.Recorded(commands, c)) == Config.SessionMap(commands)[c.channel := c.program]
  {
    var after, before := Config.SessionMap(Config.Recorded(commands, c)), Config.SessionMap(commands);
    forall channel: byte
      ensures channel in after <==> channel in before || channel == c.channel
      ensures channel in after ==> after[channel] == if channel == c.channel then c.program else before[channel]
    {
      Config.SessionMapIsFirst(Config.Recorded(commands, c), channel);
      Config.SessionMapIsFirst(commands, channel);
      Config.RecordingReplacesOne(commands, c, channel);
    }
  }

  predicate Records(op: Config.Operation, memory: Memory) {
    match memory
    case Program(p) => op == Config.RecordProgram(p)
    case Light(c) => op == Config.RecordLighting(c)
    case Picture(p) => op == Config.RecordDisplay(p)
  }

  /** What one successful record does to the session. */
  lemma RecordingIsExact(c: Config.Configuration, op: Config.Operation, memory: Memory, landed: bool)
    requires Records(op, memory) && Config.Perform(c, op, landed).1.None?
    ensures var before, after := c.document.session, Config.Perform(c, op, landed).0.document.session;
      && after.program == (if memory.Program? then Some(memory.program) else before.program)
      && after.display == (if memory.Picture? then Some(memory.preset) else before.display)
      && Config.SessionMap(after.lighting) ==
           if memory.Light? then Config.SessionMap(before.lighting)[memory.command.channel := memory.command.program]
           else Config.SessionMap(before.lighting)
  {
    if memory.Light? {
      RecordedMap(c.document.session.lighting, memory.command);
      Config.SessionMapIsFirst(c.document.session.lighting, memory.command.channel);
    }
  }

  lemma RememberingKeeps(m: Machine, d: State, op: Config.Operation, memory: Memory, landed: bool)
    requires Kept(m, d) && Records(op, memory)
    ensures Kept(m, Remember(d, op, memory, landed))
  {
    var next := Remember(d, op, memory, landed);
    Config.PerformKeepsReloadable(d.config, op, landed);
    if Config.Perform(d.config, op, landed).1.None? {
      RecordingIsExact(d.config, op, memory, landed);
      assert next.remembered[..|next.remembered| - 1] == d.remembered;
    } else {
      Config.FailureChangesNothing(d.config, op, landed);
    }
  }

  lemma CoolingKeeps(m: Machine, d: State, e: CoolingRuns.Event)
    requires Kept(m, d) && CoolingRuns.Admitted([e])
    requires e.Request? && !e.program.Onboard? ==> !ReadOnly(m.facts)
    ensures Kept(m, Cooled(d, e))
  {
    var next := Cooled(d, e);
    assert next.cooled[..|next.cooled| - 1] == d.cooled;
    assert [e][0] == e;
  }

  lemma ConcludingKeeps(
      m: Machine, d: State, confirmed: bool, op: Config.Operation, memory: Memory, landed: bool)
    requires Kept(m, d) && Records(op, memory)
    ensures Kept(m, Concluded(d, confirmed, op, memory, landed))
  {
    if confirmed {
      RememberingKeeps(m, d, op, memory, landed);
    }
  }

  lemma ExecutingKeeps(m: Machine, d: State, program: Profiles.Program, w: CoolingWorld)
    requires Kept(m, d)
    ensures Kept(m, Execute(d, program, w).state)
  {
    if GateProgram(d.facts, program).None? {
      var e := CoolingRuns.Request(w.now, w.wall, program, w.bound, w.machine, w.faults);
      var confirmed := !program.Onboard? && CoolingRuns.Asked(d.cooling, e).outcome.hardware.Confirmed?;
      var cooled := Cooled(d, e);
      CoolingKeeps(m, d, e);
      ConcludingKeeps(m, cooled, confirmed, Config.RecordProgram(program), Program(program), w.landed);
    }
  }

  /** Whatever a permitted lighting command does to the controller, the rest of the state is kept. */
  lemma LitKeeps(m: Machine, d: State, lit: Lighting.System, sends: nat)
    requires Kept(m, d) && !ReadOnly(m.facts)
    ensures Kept(m, d.(lighting := lit, sends := sends))
  {
  }

  lemma IlluminatingKeeps(m: Machine, d: State, c: Lighting.Command, w: LightWorld)
    requires Kept(m, d)
    ensures Kept(m, Illuminate(d, c, w).state)
  {
    if GateLighting(d.facts, c).None? {
      var lit := Lighting.Apply(d.lighting.executor, d.lighting.controller, w.now, c, w.link);
      var wrote := Lit(d, c, w);
      LitKeeps(m, d, wrote.lighting, wrote.sends);
      ConcludingKeeps(m, wrote, lit.outcome.hardware.Confirmed?, Config.RecordLighting(c), Light(c), w.landed);
    }
  }

  /** Ticks and drops never set a preset or an animation, and send nothing when neither is set. */
  lemma DisplayingKeeps(m: Machine, d: State, e: Display.Event)
    requires Kept(m, d)
    requires e.Applied? ==> !ReadOnly(m.facts)
    ensures Kept(m, Displayed(d, e))
  {
  }

  lemma ShowingKeeps(m: Machine, d: State, preset: Display.Preset, w: PanelWorld)
    requires Kept(m, d)
    ensures Kept(m, Show(d, preset, w).state)
  {
    if GateDisplay(d.facts, preset).None? {
      var e := Display.Applied(preset, w.renderer, w.link, w.now);
      DisplayingKeeps(m, d, e);
      var shown := Display.Apply(d.display.executor, d.display.panel, preset, w.renderer, w.link, w.now);
      var wrote := Displayed(d, e);
      if shown.Some? {
        ConcludingKeeps(m, wrote, shown.value.outcome.hardware.Confirmed?, Config.RecordDisplay(preset),
                        Picture(preset), w.landed);
      }
    }
  }

  lemma {:induction false} LightingKeeps(
      m: Machine, d: State, commands: seq<Lighting.Command>, lights: seq<LightWorld>)
    requires Kept(m, d)
    ensures Kept(m, ApplyLighting(d, commands, lights))
  {
    if commands != [] {
      LightingKeeps(m, d, commands[..|commands| - 1], lights);
      IlluminatingKeeps(m, ApplyLighting(d, commands[..|commands| - 1], lights),
                        commands[|commands| - 1], LightAt(lights, |commands| - 1));
    }
  }

  lemma PuttingBackKeeps(
      m: Machine, d: State, lighting: seq<Lighting.Command>, preset: Option<Display.Preset>,
      program: Option<Profiles.Program>, w: World)
    requires Kept(m, d)
    ensures Kept(m, PutBack(d, lighting, preset, program, w))
  {
    LightingKeeps(m, d, lighting, w.lights);
    var lit := ApplyLighting(d, lighting, w.lights);
    if preset.Some? {
      ShowingKeeps(m, lit, preset.value, w.panel);
    }
    if program.Some? {
      ExecutingKeeps(m, ApplyDisplay(lit, preset, w.panel), program.value, w.cooling);
    }
  }

  /** Choosing a profile changes which one is active and nothing the session holds. */
  lemma ActivatingKeeps(m: Machine, d: State, name: string, landed: bool, w: World)
    requires Kept(m, d)
    ensures Kept(m, ActivateProfile(d, name, landed, w).state)
  {
    Config.PerformKeepsReloadable(d.config, Config.Activate(name), landed);
    var found := Config.Find(Config.Offered(d.config.document), name);
    if found.Some? {
      var (config, error) := Config.Perform(d.config, Config.Activate(name), landed);
      var p := found.value;
      PuttingBackKeeps(m, d.(config := config), p.lighting, p.display, Some(p.program), w);
    }
  }

  lemma TickingKeeps(m: Machine, d: State, r: Request)
    requires Kept(m, d) && r.Ticked?
    ensures Kept(m, Handle(d, r))
  {
    var e := if r.present then CoolingRuns.Check(r.kraken, r.wall) else CoolingRuns.Reconnect(r.pump, r.fan);
    CoolingKeeps(m, d, e);
    DisplayingKeeps(m, Cooled(d, e), if r.present then Display.Refreshed(r.panelWorld.renderer, r.panelWorld.link)
                                     else Display.Reconnected(r.panel));
  }

  lemma HandlingKeeps(m: Machine, d: State, r: Request)
    requires Kept(m, d)
    ensures Kept(m, Handle(d, r))
  {
    match r
    case ApplyProgram(program, w) => ExecutingKeeps(m, d, program, w);
    case ApplyLight(command, w) => IlluminatingKeeps(m, d, command, w);
    case ApplyPicture(preset, w) => ShowingKeeps(m, d, preset, w);
    case SaveProfile(p, landed) => Config.PerformKeepsReloadable(d.config, Config.Save(p), landed);
    case DeleteProfile(name, landed) => Config.PerformKeepsReloadable(d.config, Config.Delete(name), landed);
    case Activate(name, landed, w) => ActivatingKeeps(m, d, name, landed, w);
    case Ticked(_, _, _, _, _, _, _) => TickingKeeps(m, d, r);
    case TickedAnimation(now, link) => DisplayingKeeps(m, d, Display.Advanced(link, now));
    case DroppedFrame => DisplayingKeeps(m, d, Display.Dropped);
  }

  lemma BootingKeeps(m: Machine)
    ensures Kept(m, Boot(m))
  {
    Config.LoadIsReloadable(m.file, m.renamed);
  }

  lemma {:induction false} EveryRunKeeps(m: Machine, w: World, requests: seq<Request>)
    ensures Kept(m, Serve(Start(m, w), requests))
  {
    if requests == [] {
      var d := Boot(m);
      BootingKeeps(m);
      var doc := d.config.document;
      var held := Config.RestoredProgram(doc);
      PuttingBackKeeps(m, d, Config.LightingToRestore(doc), Config.RestoredDisplay(doc),
                       if held.Some? then Some(held.value.program) else None, w);
    } else {
      EveryRunKeeps(m, w, requests[..|requests| - 1]);
      HandlingKeeps(m, Serve(Start(m, w), requests[..|requests| - 1]), requests[|requests| - 1]);
    }
  }

  // ---------------------------------------------------------------- what follows for every run

  /** A read-only daemon sends nothing: not on a request, not on a restore, not on a tick, and it
      holds no picture and no animation a tick could send. */
  lemma AReadOnlyDaemonIsSilent(m: Machine, w: World, requests: seq<Request>)
    requires ReadOnly(m.facts)
    ensures Silent(m, Serve(Start(m, w), requests))
  {
    EveryRunKeeps(m, w, requests);
  }

  /** While anybody else holds a device, nothing is ever written to any. */
  lemma AConflictSilencesTheDaemon(m: Machine, w: World, requests: seq<Request>)
    requires m.facts.conflicted
    ensures Silent(m, Serve(Start(m, w), requests))
  {
    AConflictIsReadOnly(m.facts);
    AReadOnlyDaemonIsSilent(m, w, requests);
  }

  /** Nor where no record carries anything as writable. */
  lemma NothingWritableSilencesTheDaemon(m: Machine, w: World, requests: seq<Request>)
    requires forall c: Capability :: !Writable(m.facts.kraken, c) && !Writable(m.facts.rgb, c)
    ensures Silent(m, Serve(Start(m, w), requests))
  {
    NothingWritableIsReadOnly(m.facts);
    AReadOnlyDaemonIsSilent(m, w, requests);
  }

  /** Through requests, activations, restores and ticks, the cooling record is true of the device,
      calls that reach it are spaced, and no validated program sends the pump less than its floor. */
  lemma CoolingHoldsUnderTheDaemon(m: Machine, w: World, requests: seq<Request>)
    ensures var d := Serve(Start(m, w), requests);
      var touches := CoolingRuns.Touches(Boot(m).cooling, d.cooled);
      && Cooling.Sound(d.cooling.executor, d.cooling.board)
      && CoolingRuns.RecordFloored(d.cooling.executor)
      && (forall i, j :: 0 <= i < j < |touches| ==> touches[j] - touches[i] >= Cooling.MIN_PROGRAM_INTERVAL)
  {
    EveryRunKeeps(m, w, requests);
    var d := Serve(Start(m, w), requests);
    CoolingRuns.RecordIsAlwaysTrue(Boot(m).cooling, d.cooled);
    CoolingRuns.RecordStaysFloored(Boot(m).cooling, d.cooled);
    CoolingRuns.TouchesAreSpaced(Boot(m).cooling, d.cooled);
  }

  /** Every program the executor was ever asked for, by a request, an activation or a start: what it wrote
      to the pump is floored, save a duty the device reported when that call began. Those calls are all the
      cooling part ever went through. */
  lemma PumpFloorHoldsUnderTheDaemon(m: Machine, w: World, requests: seq<Request>, i: nat)
    requires i < |Serve(Start(m, w), requests).cooled| && Serve(Start(m, w), requests).cooled[i].Request?
    ensures var d := Serve(Start(m, w), requests);
      var before, e := CoolingRuns.Run(Boot(m).cooling, d.cooled[..i]), d.cooled[i];
      var asked := CoolingRuns.Asked(before, e);
      && CoolingRuns.LogFloored(before.board.log, asked.board.log,
                                if asked.outcome.hardware.Confirmed? then None
                                else Control.ReadDuty(before.board.pump, e.machine.pump))
      && d.cooling == CoolingRuns.Run(Boot(m).cooling, d.cooled)
  {
    EveryRunKeeps(m, w, requests);
    EveryCallIsFloored(Boot(m).cooling, Serve(Start(m, w), requests).cooled, i);
  }

  lemma EveryCallIsFloored(s: CoolingRuns.System, events: seq<CoolingRuns.Event>, i: nat)
    requires CoolingRuns.Fresh(s) && CoolingRuns.Admitted(events) && i < |events| && events[i].Request?
    ensures var before, e := CoolingRuns.Run(s, events[..i]), events[i];
      var asked := CoolingRuns.Asked(before, e);
      CoolingRuns.LogFloored(before.board.log, asked.board.log,
                             if asked.outcome.hardware.Confirmed? then None
                             else Control.ReadDuty(before.board.pump, e.machine.pump))
  {
    CoolingRuns.PumpFloorHoldsInEveryRun(s, events[..i], events[i]);
  }

  /** What enters the memory: a confirmed command the disk took or already held, and nothing else. */
  lemma RememberedExactlyWhen(d: State, confirmed: bool, op: Config.Operation, memory: Memory, landed: bool)
    requires Records(op, memory)
    ensures var next := Concluded(d, confirmed, op, memory, landed);
      if confirmed && (landed || Config.Edit(d.config.document, op) == Config.Ok(None))
      then next.remembered == d.remembered + [memory]
      else next.remembered == d.remembered && next.config == d.config
  {
    Config.FailureChangesNothing(d.config, op, landed);
  }

  /** A program is remembered exactly when the device confirmed it, it writes something, and the disk took
      its record or already held it. */
  lemma OnlyConfirmedIsRemembered(d: State, program: Profiles.Program, w: CoolingWorld)
    requires GateProgram(d.facts, program).None?
    ensures var e := CoolingRuns.Request(w.now, w.wall, program, w.bound, w.machine, w.faults);
      var confirmed := !program.Onboard? && CoolingRuns.Asked(d.cooling, e).outcome.hardware.Confirmed?;
      var next := Execute(d, program, w).state;
      if confirmed && (w.landed || d.config.document.session.program == Some(program))
      then next.remembered == d.remembered + [Program(program)] && next.config.document.session.program == Some(program)
      else next.remembered == d.remembered && next.config == d.config
  {
    var e := CoolingRuns.Request(w.now, w.wall, program, w.bound, w.machine, w.faults);
    var confirmed := !program.Onboard? && CoolingRuns.Asked(d.cooling, e).outcome.hardware.Confirmed?;
    RememberedExactlyWhen(Cooled(d, e), confirmed, Config.RecordProgram(program), Program(program), w.landed);
  }

  /** The same of a lighting command. */
  lemma OnlyConfirmedLightIsRemembered(d: State, c: Lighting.Command, w: LightWorld)
    requires GateLighting(d.facts, c).None?
    ensures var confirmed :=
        Lighting.Apply(d.lighting.executor, d.lighting.controller, w.now, c, w.link).outcome.hardware.Confirmed?;
      var next := Illuminate(d, c, w).state;
      if confirmed && (w.landed || Config.First(d.config.document.session.lighting, c.channel) == Some(c))
      then next.remembered == d.remembered + [Light(c)]
      else next.remembered == d.remembered && next.config == d.config
  {
    var confirmed :=
      Lighting.Apply(d.lighting.executor, d.lighting.controller, w.now, c, w.link).outcome.hardware.Confirmed?;
    RememberedExactlyWhen(Lit(d, c, w), confirmed, Config.RecordLighting(c), Light(c), w.landed);
  }

  /** The same of a picture. */
  lemma OnlyConfirmedPictureIsRemembered(d: State, preset: Display.Preset, w: PanelWorld)
    requires GateDisplay(d.facts, preset).None?
    ensures var shown := Display.Apply(d.display.executor, d.display.panel, preset, w.renderer, w.link, w.now);
      var confirmed := shown.Some? && shown.value.outcome.hardware.Confirmed?;
      var next := Show(d, preset, w).state;
      if confirmed && (w.landed || d.config.document.session.display == Some(preset))
      then next.remembered == d.remembered + [Picture(preset)]
      else next.remembered == d.remembered && next.config == d.config
  {
    var shown := Display.Apply(d.display.executor, d.display.panel, preset, w.renderer, w.link, w.now);
    var wrote := Displayed(d, Display.Applied(preset, w.renderer, w.link, w.now));
    if shown.Some? {
      RememberedExactlyWhen(wrote, shown.value.outcome.hardware.Confirmed?, Config.RecordDisplay(preset),
                            Picture(preset), w.landed);
    }
  }

  /** The session's program under no name, or the profile's under its own; nothing when that program
      writes nothing. */
  function Replayed(session: Option<Profiles.Program>, profile: Config.Profile): Option<Config.ProgramToRestore> {
    match session
    case Some(p) => if p.Onboard? then None else Some(Config.ProgramToRestore(p, None))
    case None =>
      if profile.program.Onboard? then None
      else Some(Config.ProgramToRestore(profile.program, Some(profile.name)))
  }

  /** After any run and any failing writes, a restart puts back the last program, the last picture
      and the last command of every lighting channel that was confirmed and recorded; the active
      profile supplies only what the session never held. */
  lemma RestartReplaysTheSession(m: Machine, w: World, requests: seq<Request>, renamed: bool)
    ensures var d := Serve(Start(m, w), requests);
      var held := Config.Load(m.file, m.renamed).document.session;
      var doc := Config.Load(d.config.file, renamed).document;
      var profile := Config.ActiveProfile(doc);
      && doc == d.config.document
      && Config.RestoredProgram(doc) == Replayed(LastProgram(held.program, d.remembered), profile)
      && Config.RestoredDisplay(doc) ==
           (if LastPicture(held.display, d.remembered).Some? then LastPicture(held.display, d.remembered)
            else profile.display)
      && Config.Replay(Config.LightingToRestore(doc)) ==
           Config.Replay(profile.lighting) + LastLights(Config.SessionMap(held.lighting), d.remembered)
  {
    EveryRunKeeps(m, w, requests);
    var d := Serve(Start(m, w), requests);
    Config.RestartLoadsTheDocument(d.config, renamed);
    Config.RestoreIsAnOverride(d.config.document);
  }
}
