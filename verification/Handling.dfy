/**
 What each request and each tick does to the devices and to the configuration, and what it leaves alone.
 Models `dispatch`, `tick` and `reconcile` in crates/daemon/src/state.rs.
 */
module Handling {
  import opened Basics
  import opened Daemon
  import Config
  import Control
  import CoolingRuns
  import Display
  import Lighting
  import Profiles
  import Starting

  /** A requested program reaches the cooling executor exactly when it may run, and nothing else. */
  lemma AProgramIsAskedFor(d: State, program: Profiles.Program, w: CoolingWorld)
    ensures var next := Handle(d, ApplyProgram(program, w));
      && Starting.Asked(d, next, Some(program), w)
      && next.display == d.display && next.lighting == d.lighting
  {
    Starting.ProgramAlone(d, program, w);
  }

  /** A requested picture reaches the panel exactly when it may be shown, and nothing else. */
  lemma APictureIsOffered(d: State, preset: Display.Preset, w: PanelWorld)
    ensures var next := Handle(d, ApplyPicture(preset, w));
      && Starting.Pictured(d, next, Some(preset), w)
      && next.cooled == d.cooled && next.cooling == d.cooling && next.lighting == d.lighting
  {
    Starting.PictureAlone(d, preset, w);
  }

  /** A lighting command reaches the controller's executor exactly when its channel answered, its values are in order,
      the record lets it and nobody else holds a device. */
  lemma ALightIsCommanded(d: State, c: Lighting.Command, w: LightWorld)
    ensures var next := Handle(d, ApplyLight(c, w));
      var passes := && 1 <= c.channel <= d.facts.rgbChannels && c.program.WellFormed()
                    && Writable(d.facts.rgb, if c.program.Effect? then RgbEffects else RgbFixedColor)
                    && !d.facts.conflicted;
      && next.lighting ==
           (if passes then Lighting.Step(d.lighting, Lighting.Request(w.now, c, w.link)) else d.lighting)
      && next.cooled == d.cooled && next.cooling == d.cooling && next.display == d.display
  {
    LightPassesExactlyWhen(d.facts, c);
  }

  /** Saving and deleting reach the configuration and no device. */
  lemma ProfilesTouchNoDevice(d: State, p: Config.Profile, name: string, landed: bool)
    ensures var saved, deleted := Handle(d, SaveProfile(p, landed)), Handle(d, DeleteProfile(name, landed));
      && saved == d.(config := saved.config) && deleted == d.(config := deleted.config)
      && (Config.ValidProfile(p) && p.name != Config.SAFE_PROFILE_NAME && landed ==>
            Config.Find(Config.Offered(saved.config.document), p.name) == Some(p))
      && (Config.Named(d.config.document.profiles, name) && name != Config.SAFE_PROFILE_NAME && landed ==>
            Config.Find(Config.Offered(deleted.config.document), name).None?)
  {
    Config.ASavedProfileIsOnOffer(d.config, p, landed, p.name);
    Config.ADeletedProfileIsGone(d.config, name, landed, name);
  }

  /** A tick with the device there takes exactly the flagged channels off the record, and offers the panel the
      picture of this sample if the preset is one that is redrawn. It writes no attribute and no light. */
  lemma ATickChecksAndRedraws(d: State, r: Request)
    requires r.Ticked? && r.present
    ensures var next := Handle(d, r);
      && next.cooled == d.cooled + [CoolingRuns.Check(r.kraken, r.wall)]
      && next.cooling.board == d.cooling.board
      && (forall c: Profiles.Channel ::
            next.cooling.executor.Target(c) ==
              if CoolingRuns.Flag(d.cooling.executor, r.kraken, r.wall, c).Some? then None
              else d.cooling.executor.Target(c))
      && next.display == Display.Step(d.display, Display.Refreshed(r.panelWorld.renderer, r.panelWorld.link))
      && next.lighting == d.lighting && next.config == d.config
  {
  }

  /** So a streaming preset over a good link ends up showing the picture of this sample. */
  lemma ATickShowsTheSample(d: State, r: Request, picture: Display.Frame)
    requires r.Ticked? && r.present && Display.Sound(d.display.executor, d.display.panel)
    requires r.panelWorld.renderer.picture == Some(picture)
    requires r.panelWorld.link == Display.Link(Display.Accepted, Display.Sent)
    ensures var ex := d.display.executor;
      ex.connected && !ex.faulted && ex.active.Some? && ex.active.value.UsesReadings() && ex.animation.None? ==>
        Handle(d, r).display.panel == Display.Panel(Some(picture), Some(ex.active.value.brightness))
  {
    ATickChecksAndRedraws(d, r);
  }

  /** A tick with the device gone forgets what it held and sends nothing to anything. */
  lemma ATickForgetsWhatIsGone(d: State, r: Request)
    requires r.Ticked? && !r.present
    ensures var next := Handle(d, r);
      && next.cooling.executor.committed == map[] && !next.cooling.executor.control
      && next.cooling.executor.lastWrite == d.cooling.executor.lastWrite
      && next.cooling.board.log == d.cooling.board.log
      && next.display.executor.committed.None? && next.display.executor.brightness.None?
      && !next.display.executor.faulted && next.display.executor.active == d.display.executor.active
      && next.display.panel == r.panel
      && next.sends == d.sends && next.lighting == d.lighting && next.config == d.config
  {
  }

  /** The animation's clock and the late frames are the panel's alone. */
  lemma TheClockTouchesOnlyThePanel(d: State, now: Instant, link: Display.Link)
    ensures Handle(d, TickedAnimation(now, link))
         == d.(display := Display.Step(d.display, Display.Advanced(link, now)),
               sends := Handle(d, TickedAnimation(now, link)).sends)
    ensures Handle(d, DroppedFrame).display.panel == d.display.panel
    ensures d.display.executor.dropped < Display.DROPPED_MAX ==>
      Handle(d, DroppedFrame).display.executor
        == d.display.executor.(dropped := d.display.executor.dropped + 1)
  {
  }

  /** A picture is refused for what its gate says, or because the renderer could not draw it; and for nothing else. */
  lemma APictureIsRefusedExactlyWhen(d: State, preset: Display.Preset, w: PanelWorld)
    ensures var drawn := if preset.UsesImage() then w.renderer.pictures.Some? else w.renderer.picture.Some?;
      Show(d, preset, w).refusal ==
        if GateDisplay(d.facts, preset).Some? then GateDisplay(d.facts, preset)
        else if d.display.executor.connected && !drawn then Some(Unrendered) else None
  {
  }
}
