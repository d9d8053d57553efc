/**
 What a start leaves on the lighting controller. A restore sends its commands back to back, and the cadence
 of the executor refuses a second command on a channel that comes too soon, so a list that names a channel
 twice is not always what the controller ends up showing. Models the restore of
 crates/daemon/src/state.rs over the cadence of crates/daemon/src/lighting.rs.
 */
module Restoring {
  import opened Basics
  import Lighting
  import opened Config
  import Daemon
  import Profiles
  import Display

  /** The commands of a list, each with the moment and the link it meets. */
  function Requests(commands: seq<Lighting.Command>, lights: seq<Daemon.LightWorld>): (r: seq<Lighting.Request>)
    ensures |r| == |commands|
  {
    if commands == [] then [] else
    var n := |commands| - 1;
    var w := Daemon.LightAt(lights, n);
    Requests(commands[..n], lights) + [Lighting.Request(w.now, commands[n], w.link)]
  }

  function Commands(requests: seq<Lighting.Request>): (r: seq<Lighting.Command>)
    ensures |r| == |requests|
  {
    if requests == [] then [] else Commands(requests[..|requests| - 1]) + [requests[|requests| - 1].command]
  }

  lemma {:induction false} CommandsOfRequests(commands: seq<Lighting.Command>, lights: seq<Daemon.LightWorld>)
    ensures Commands(Requests(commands, lights)) == commands
  {
    if commands != [] {
      var n := |commands| - 1;
      CommandsOfRequests(commands[..n], lights);
      assert Requests(commands, lights)[..n] == Requests(commands[..n], lights);
    }
  }

  // ---------------------------------------------------------------- one run from nothing on record

  predicate Fresh(s: Lighting.System) {
    s.executor.connected && s.executor.committed == map[] && s.executor.lastSent == map[]
  }

  predicate AllSent(requests: seq<Lighting.Request>) {
    forall i | 0 <= i < |requests| :: requests[i].link.Sent?
  }

  /** The last command of the run for this channel met the cadence and was refused. */
  predicate LastRefused(s: Lighting.System, requests: seq<Lighting.Request>, channel: byte) {
    requests != [] &&
    var before, r := requests[..|requests| - 1], requests[|requests| - 1];
    if r.command.channel == channel
    then var ex := Lighting.Run(s, before).executor; !Lighting.Holds(ex, r.command) && Lighting.TooSoon(ex, r.now, r.command)
    else LastRefused(s, before, channel)
  }

  /** No channel's last command came too soon. */
  ghost predicate NoneRefused(s: Lighting.System, requests: seq<Lighting.Request>) {
    forall channel: byte :: !LastRefused(s, requests, channel)
  }

  /** One channel once `asked` was asked for: on record exactly when it was named, showing what is on
      record, and that is the last program named exactly when the last command was not refused. */
  ghost predicate Shows(
      s: Lighting.System, t: Lighting.System, asked: map<byte, Lighting.Program>, refused: bool, channel: byte)
  {
    && t.executor.connected
    && (channel in t.executor.committed <==> channel in asked)
    && (channel in t.executor.lastSent <==> channel in asked)
    && (if channel in asked then
          && channel in t.controller && t.controller[channel] == t.executor.committed[channel]
          && (t.controller[channel] == asked[channel] <==> !refused)
        else
          && !refused
          && (channel in t.controller <==> channel in s.controller)
          && (channel in s.controller ==> t.controller[channel] == s.controller[channel]))
  }

  lemma OneMoreShows(
      s: Lighting.System, t: Lighting.System, asked: map<byte, Lighting.Program>, refused: bool,
      r: Lighting.Request, channel: byte)
    requires Shows(s, t, asked, refused, channel) && r.link.Sent?
    ensures var c := r.command;
      var now := if c.channel == channel
                 then !Lighting.Holds(t.executor, c) && Lighting.TooSoon(t.executor, r.now, c) else refused;
      Shows(s, Lighting.Step(t, r), asked[c.channel := c.program], now, channel)
  {
  }

  ghost predicate Follows(s: Lighting.System, requests: seq<Lighting.Request>, channel: byte) {
    Shows(s, Lighting.Run(s, requests), Replay(Commands(requests)), LastRefused(s, requests, channel), channel)
  }

  lemma {:induction false} EveryChannelFollows(s: Lighting.System, requests: seq<Lighting.Request>, channel: byte)
    requires Fresh(s) && AllSent(requests)
    ensures Follows(s, requests, channel)
  {
    if requests != [] {
      var n := |requests| - 1;
      var before, r := requests[..n], requests[n];
      EveryChannelFollows(s, before, channel);
      assert Commands(requests)[..n] == Commands(before);
      assert r.link.Sent?;
      OneMoreShows(s, Lighting.Run(s, before), Replay(Commands(before)), LastRefused(s, before, channel), r, channel);
    }
  }

  /** With nothing on record and nothing failing, a run leaves the controller showing what it asked for if
      and only if no channel's last command was refused for coming too soon. */
  lemma AskedIsShownExactlyWhen(s: Lighting.System, requests: seq<Lighting.Request>)
    requires Fresh(s) && AllSent(requests)
    ensures Lighting.Run(s, requests).controller == s.controller + Replay(Commands(requests))
      <==> NoneRefused(s, requests)
  {
    var shown, asked := Lighting.Run(s, requests).controller, Replay(Commands(requests));
    var expected := s.controller + asked;
    forall channel: byte ensures Follows(s, requests, channel) {
      EveryChannelFollows(s, requests, channel);
    }
    if NoneRefused(s, requests) {
      forall channel: byte
        ensures channel in shown <==> channel in expected
        ensures channel in shown ==> shown[channel] == expected[channel]
      {
        assert Follows(s, requests, channel);
      }
      assert shown == expected;
    } else {
      var channel: byte :| LastRefused(s, requests, channel);
      assert Follows(s, requests, channel);
      assert channel in asked && expected[channel] == asked[channel];
      assert channel in shown && shown[channel] != expected[channel];
      assert shown != expected;
    }
  }

  // ---------------------------------------------------------------- back to back

  /** The whole run fits in less than the floor, as a restore does. */
  predicate Burst(requests: seq<Lighting.Request>) {
    forall i, j :: 0 <= i < j < |requests| ==> requests[j].now - requests[i].now < Lighting.MIN_COMMAND_INTERVAL
  }

  /** Every stamp is the moment of a command of the run. */
  ghost predicate Stamped(s: Lighting.System, requests: seq<Lighting.Request>, channel: byte) {
    var stamps := Lighting.Run(s, requests).executor.lastSent;
    channel in stamps ==>
      exists i :: 0 <= i < |requests| && requests[i].command.channel == channel && requests[i].now == stamps[channel]
  }

  lemma {:induction false} StampsAreMoments(s: Lighting.System, requests: seq<Lighting.Request>, channel: byte)
    requires Fresh(s)
    ensures Stamped(s, requests, channel)
  {
    if requests != [] {
      var n := |requests| - 1;
      StampsAreMoments(s, requests[..n], channel);
      var before, after := Lighting.Run(s, requests[..n]).executor.lastSent, Lighting.Run(s, requests).executor.lastSent;
      if channel in after {
        if channel in before && after[channel] == before[channel] {
          var i :| 0 <= i < n && requests[..n][i].command.channel == channel && requests[..n][i].now == before[channel];
          assert requests[i].command.channel == channel && requests[i].now == after[channel];
        } else {
          assert requests[n].command.channel == channel && requests[n].now == after[channel];
        }
      }
    }
  }

  /** In a burst, a command on a channel already sent to comes too soon. */
  lemma TheSecondComesTooSoon(s: Lighting.System, requests: seq<Lighting.Request>)
    requires Fresh(s) && Burst(requests) && requests != []
    ensures var n := |requests| - 1;
      var ex, r := Lighting.Run(s, requests[..n]).executor, requests[n];
      r.command.channel in ex.lastSent ==> Lighting.TooSoon(ex, r.now, r.command)
  {
    var n := |requests| - 1;
    var before, r := requests[..n], requests[n];
    var ex := Lighting.Run(s, before).executor;
    var channel := r.command.channel;
    StampsAreMoments(s, before, channel);
    if channel in ex.lastSent {
      var i :| 0 <= i < n && before[i].command.channel == channel && before[i].now == ex.lastSent[channel];
      assert requests[n].now - requests[i].now < Lighting.MIN_COMMAND_INTERVAL;
    }
  }

  /** In a burst, a channel keeps the first program it was given. */
  lemma {:induction false} FirstIsKept(s: Lighting.System, requests: seq<Lighting.Request>, channel: byte)
    requires Fresh(s) && AllSent(requests) && Burst(requests)
    ensures var first := First(Commands(requests), channel);
      var committed := Lighting.Run(s, requests).executor.committed;
      && (channel in committed <==> first.Some?)
      && (first.Some? ==> committed[channel] == first.value.program)
  {
    if requests != [] {
      var n := |requests| - 1;
      var before, r := requests[..n], requests[n];
      FirstIsKept(s, before, channel);
      FirstOfSum(Commands(before), [r.command], channel);
      EveryChannelFollows(s, before, channel);
      TheSecondComesTooSoon(s, requests);
      assert r.link.Sent?;
    }
  }

  /** Back to back, the first program of each channel wins. */
  lemma BurstShowsTheFirst(s: Lighting.System, requests: seq<Lighting.Request>)
    requires Fresh(s) && AllSent(requests) && Burst(requests)
    ensures Lighting.Run(s, requests).controller == s.controller + SessionMap(Commands(requests))
  {
    var shown, first := Lighting.Run(s, requests).controller, SessionMap(Commands(requests));
    forall channel: byte
      ensures channel in shown <==> channel in s.controller + first
      ensures channel in shown ==> shown[channel] == (s.controller + first)[channel]
    {
      EveryChannelFollows(s, requests, channel);
      FirstIsKept(s, requests, channel);
      SessionMapIsFirst(Commands(requests), channel);
    }
  }

  // ---------------------------------------------------------------- far enough apart

  /** Two commands on one channel are at least the floor apart. */
  predicate Spaced(requests: seq<Lighting.Request>) {
    forall i, j :: 0 <= i < j < |requests| && requests[i].command.channel == requests[j].command.channel
      ==> requests[j].now - requests[i].now >= Lighting.MIN_COMMAND_INTERVAL
  }

  lemma {:induction false} SpacedIsNeverRefused(s: Lighting.System, requests: seq<Lighting.Request>, channel: byte)
    requires Fresh(s) && Spaced(requests)
    ensures !LastRefused(s, requests, channel)
  {
    if requests != [] {
      var n := |requests| - 1;
      var before, r := requests[..n], requests[n];
      if r.command.channel != channel {
        SpacedIsNeverRefused(s, before, channel);
      } else {
        StampsAreMoments(s, before, channel);
        var ex := Lighting.Run(s, before).executor;
        if channel in ex.lastSent {
          var i :| 0 <= i < n && before[i].command.channel == channel && before[i].now == ex.lastSent[channel];
          assert requests[i].command.channel == requests[n].command.channel;
        }
      }
    }
  }

  // ---------------------------------------------------------------- what a start leaves

  predicate GatesOpen(f: Daemon.Facts, commands: seq<Lighting.Command>) {
    forall c | c in commands :: Daemon.GateLighting(f, c).None?
  }

  /** The daemon's loop over a list of permitted commands is a run of the executor. */
  lemma {:induction false} ApplyingIsRunning(
      d: Daemon.State, commands: seq<Lighting.Command>, lights: seq<Daemon.LightWorld>)
    requires GatesOpen(d.facts, commands)
    ensures var after := Daemon.ApplyLighting(d, commands, lights);
      after.lighting == Lighting.Run(d.lighting, Requests(commands, lights)) && after.facts == d.facts
  {
    if commands != [] {
      var n := |commands| - 1;
      var requests := Requests(commands, lights);
      ApplyingIsRunning(d, commands[..n], lights);
      assert requests[..n] == Requests(commands[..n], lights);
      OneIsAStep(Daemon.ApplyLighting(d, commands[..n], lights), commands[n], Daemon.LightAt(lights, n));
    }
  }

  lemma OneIsAStep(d: Daemon.State, c: Lighting.Command, w: Daemon.LightWorld)
    requires Daemon.GateLighting(d.facts, c).None?
    ensures var after := Daemon.Illuminate(d, c, w).state;
      after.lighting == Lighting.Step(d.lighting, Lighting.Request(w.now, c, w.link)) && after.facts == d.facts
  {
  }

  lemma TheRestLeavesTheLightsAlone(
      d: Daemon.State, preset: Option<Display.Preset>, program: Option<Profiles.Program>,
      panel: Daemon.PanelWorld, cooling: Daemon.CoolingWorld)
    ensures Daemon.ApplyDisplay(d, preset, panel).lighting == d.lighting
    ensures program.Some? ==> Daemon.Execute(d, program.value, cooling).state.lighting == d.lighting
  {
  }

  /** The requests a start makes of the lighting executor. */
  function Restored(m: Daemon.Machine, w: Daemon.World): seq<Lighting.Request> {
    Requests(LightingToRestore(Daemon.Boot(m).config.document), w.lights)
  }

  /** A start whose lighting is connected, permitted and never fails. */
  predicate Smooth(m: Daemon.Machine, w: Daemon.World) {
    m.lit && GatesOpen(m.facts, LightingToRestore(Daemon.Boot(m).config.document)) && AllSent(Restored(m, w))
  }

  lemma StartRunsTheRestore(m: Daemon.Machine, w: Daemon.World)
    requires Smooth(m, w)
    ensures Daemon.Start(m, w).lighting == Lighting.Run(Daemon.Boot(m).lighting, Restored(m, w))
    ensures Fresh(Daemon.Boot(m).lighting)
  {
    var d := Daemon.Boot(m);
    var doc := d.config.document;
    var held := RestoredProgram(doc);
    var program := if held.Some? then Some(held.value.program) else None;
    ApplyingIsRunning(d, LightingToRestore(doc), w.lights);
    var lit := Daemon.ApplyLighting(d, LightingToRestore(doc), w.lights);
    TheRestLeavesTheLightsAlone(lit, RestoredDisplay(doc), program, w.panel, w.cooling);
    var shown := Daemon.ApplyDisplay(lit, RestoredDisplay(doc), w.panel);
    TheRestLeavesTheLightsAlone(shown, None, program, w.panel, w.cooling);
  }

  /** What the session and the profile ask for is what the controller shows after a start if and only if no
      channel's last command was refused for coming too soon. */
  lemma StartShowsTheOverrideExactlyWhen(m: Daemon.Machine, w: Daemon.World)
    requires Smooth(m, w)
    ensures var doc := Daemon.Boot(m).config.document;
      var asked := Replay(ActiveProfile(doc).lighting) + SessionMap(doc.session.lighting);
      (Daemon.Start(m, w).lighting.controller == m.controller + asked)
        <==> NoneRefused(Daemon.Boot(m).lighting, Restored(m, w))
  {
    var doc := Daemon.Boot(m).config.document;
    StartRunsTheRestore(m, w);
    AskedIsShownExactlyWhen(Daemon.Boot(m).lighting, Restored(m, w));
    CommandsOfRequests(LightingToRestore(doc), w.lights);
    RestoreIsAnOverride(doc);
  }

  /** In particular it is whenever the commands on one channel come at least the floor apart. */
  lemma SpacedStartShowsTheOverride(m: Daemon.Machine, w: Daemon.World)
    requires Smooth(m, w) && Spaced(Restored(m, w))
    ensures var doc := Daemon.Boot(m).config.document;
      Daemon.Start(m, w).lighting.controller
        == m.controller + (Replay(ActiveProfile(doc).lighting) + SessionMap(doc.session.lighting))
  {
    StartShowsTheOverrideExactlyWhen(m, w);
    forall channel: byte ensures !LastRefused(Daemon.Boot(m).lighting, Restored(m, w), channel) {
      StartRunsTheRestore(m, w);
      SpacedIsNeverRefused(Daemon.Boot(m).lighting, Restored(m, w), channel);
    }
  }

  lemma {:induction false} OverlayKeepsFirst(
      profile: seq<Lighting.Command>, session: seq<Lighting.Command>, channel: byte)
    ensures First(Overlay(profile, session), channel) ==
      if First(profile, channel).Some? && First(session, channel).Some? then First(session, channel)
      else First(profile, channel)
  {
    if profile != [] {
      var n := |profile| - 1;
      var init, last := profile[..n], profile[n];
      OverlayKeepsFirst(init, session, channel);
      FirstIsItsChannel(session, last.channel);
      assert profile == init + [last];
      FirstOfSum(init, [last], channel);
      var o := Overlay(profile, session);
      assert o == Overlay(init, session) + [o[|o| - 1]];
      FirstOfSum(Overlay(init, session), [o[|o| - 1]], channel);
    }
  }

  lemma FirstIsItsChannel(commands: seq<Lighting.Command>, channel: byte)
    ensures First(commands, channel).Some? ==> First(commands, channel).value.channel == channel
  {
    SessionMapIsFirst(commands, channel);
  }

  lemma {:induction false} PushingKeepsFirst(
      commands: seq<Lighting.Command>, session: seq<Lighting.Command>, i: nat, channel: byte)
    requires i <= |session|
    ensures First(PushMissing(commands, session, i), channel) ==
      if First(commands, channel).Some? then First(commands, channel) else First(session[i..], channel)
    decreases |session| - i
  {
    if i < |session| {
      assert session[i..][1..] == session[i + 1..];
      if First(commands, session[i].channel).Some? {
        PushingKeepsFirst(commands, session, i + 1, channel);
      } else {
        PushingKeepsFirst(commands + [session[i]], session, i + 1, channel);
        FirstOfSum(commands, [session[i]], channel);
      }
    }
  }

  /** The first programs a restore names: the session's, and the profile's first elsewhere. */
  lemma FirstsOfTheRestore(d: Document)
    ensures SessionMap(LightingToRestore(d)) == SessionMap(ActiveProfile(d).lighting) + SessionMap(d.session.lighting)
  {
    var profile, session := ActiveProfile(d).lighting, d.session.lighting;
    var all := SessionMap(LightingToRestore(d));
    var expected := SessionMap(profile) + SessionMap(session);
    forall channel: byte
      ensures channel in all <==> channel in expected
      ensures channel in all ==> all[channel] == expected[channel]
    {
      OverlayKeepsFirst(profile, session, channel);
      PushingKeepsFirst(Overlay(profile, session), session, 0, channel);
      assert session[0..] == session;
      SessionMapIsFirst(LightingToRestore(d), channel);
      SessionMapIsFirst(profile, channel);
      SessionMapIsFirst(session, channel);
    }
  }

  /** A profile that gives a channel one program first and another last, on a channel the session never
      committed. */
  predicate Ambiguous(d: Document, channel: byte) {
    var profile := ActiveProfile(d).lighting;
    && channel in Replay(profile) && channel in SessionMap(profile)
    && channel !in SessionMap(d.session.lighting)
    && SessionMap(profile)[channel] != Replay(profile)[channel]
  }

  /** A start that restores back to back leaves the profile's first programs, under the session's. It shows
      what was asked for if and only if no channel of the profile is ambiguous. */
  lemma BurstStartShowsTheOverrideExactlyWhen(m: Daemon.Machine, w: Daemon.World)
    requires Smooth(m, w) && Burst(Restored(m, w))
    ensures var doc := Daemon.Boot(m).config.document;
      var profile, session := ActiveProfile(doc).lighting, SessionMap(doc.session.lighting);
      var shown := Daemon.Start(m, w).lighting.controller;
      && shown == m.controller + (SessionMap(profile) + session)
      && (shown == m.controller + (Replay(profile) + session) <==> forall channel: byte :: !Ambiguous(doc, channel))
  {
    var doc := Daemon.Boot(m).config.document;
    StartRunsTheRestore(m, w);
    BurstShowsTheFirst(Daemon.Boot(m).lighting, Restored(m, w));
    CommandsOfRequests(LightingToRestore(doc), w.lights);
    FirstsOfTheRestore(doc);
    FirstsAreLastsExactlyWhen(m.controller, doc);
  }

  lemma FirstsAreLastsExactlyWhen(controller: Lighting.Controller, d: Document)
    ensures var profile, session := ActiveProfile(d).lighting, SessionMap(d.session.lighting);
      var first, last := controller + (SessionMap(profile) + session), controller + (Replay(profile) + session);
      first == last <==> forall channel: byte :: !Ambiguous(d, channel)
  {
    var profile, session := ActiveProfile(d).lighting, SessionMap(d.session.lighting);
    var first, last := controller + (SessionMap(profile) + session), controller + (Replay(profile) + session);
    forall channel: byte ensures channel in SessionMap(profile) <==> channel in Replay(profile) {
      FirstMeansReplayed(profile, channel);
      SessionMapIsFirst(profile, channel);
    }
    if forall channel: byte :: !Ambiguous(d, channel) {
      forall channel: byte
        ensures channel in first <==> channel in last
        ensures channel in first ==> first[channel] == last[channel]
      {
        assert !Ambiguous(d, channel);
      }
    } else {
      var channel: byte :| Ambiguous(d, channel);
      assert first[channel] == SessionMap(profile)[channel] && last[channel] == Replay(profile)[channel];
    }
  }

  /** A valid profile naming one channel twice, restored at one moment: the controller stays on the first
      program while the profile asks for the second. */
  lemma ATwiceNamedChannelKeepsItsFirstProgram(
      controller: Lighting.Controller, first: Lighting.Program, last: Lighting.Program)
    requires first.WellFormed() && last.WellFormed() && first != last
    ensures var commands := [Lighting.Command(1, first), Lighting.Command(1, last)];
      var s := Lighting.System(Lighting.Executor(true, map[], map[]), controller);
      var shown := Lighting.Run(s, Requests(commands, [])).controller;
      && ValidProfile(Profile("twice", Profiles.Onboard, None, commands, None))
      && shown == controller + map[1 := first]
      && Replay(commands) == map[1 := last]
  {
    var commands := [Lighting.Command(1, first), Lighting.Command(1, last)];
    var s := Lighting.System(Lighting.Executor(true, map[], map[]), controller);
    RequestsOfTwo(commands[0], commands[1]);
    BurstShowsTheFirst(s, Requests(commands, []));
    CommandsOfRequests(commands, []);
    MapsOfTwo(commands[0], commands[1]);
  }

  lemma RequestsOfTwo(a: Lighting.Command, b: Lighting.Command)
    ensures Requests([a, b], []) == [Lighting.Request(0, a, Lighting.Sent), Lighting.Request(0, b, Lighting.Sent)]
  {
    assert [a][..0] == [] && Requests([a], []) == [Lighting.Request(0, a, Lighting.Sent)];
    assert [a, b][..1] == [a];
  }

  lemma MapsOfTwo(a: Lighting.Command, b: Lighting.Command)
    requires a.channel == b.channel
    ensures SessionMap([a, b]) == map[a.channel := a.program]
    ensures Replay([a, b]) == map[a.channel := b.program]
  {
    assert [b][1..] == [] && SessionMap([b]) == map[b.channel := b.program];
    assert [a, b][1..] == [b];
    assert [a][..0] == [] && Replay([a]) == map[a.channel := a.program];
    assert [a, b][..1] == [a];
  }
}
