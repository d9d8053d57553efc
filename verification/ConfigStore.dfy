/**
 The configuration as the object it is: one document in memory, one file behind it. Each method is
 tied to the function in `Config` that says what it does. Models crates/daemon/src/config.rs and the
 checks of crates/daemon/src/config/document.rs.
 */
module ConfigStore {
  import opened Basics
  import opened Config
  import Profiles
  import Lighting
  import Display

  /** The pass over the profiles of a file, remembering the names already met. */
  method CheckAll(profiles: seq<Profile>) returns (refusal: Option<Error>)
    ensures refusal == CheckProfiles(profiles, 0)
  {
    var seen: seq<string> := [];
    for i := 0 to |profiles|
      invariant |seen| == i && forall k :: 0 <= k < i ==> seen[k] == profiles[k].name
      invariant CheckProfiles(profiles, 0) == CheckProfiles(profiles, i)
    {
      var p := profiles[i];
      assert p.name in seen <==> Named(profiles[..i], p.name) by {
        if p.name in seen {
          var k :| 0 <= k < i && seen[k] == p.name;
          assert profiles[..i][k].name == p.name;
        }
        if Named(profiles[..i], p.name) {
          var k :| 0 <= k < i && profiles[..i][k].name == p.name;
          assert seen[k] == p.name;
        }
      }
      if p.name == SAFE_PROFILE_NAME || p.name in seen {
        return Some(DuplicateProfile);
      }
      if !ValidProfile(p) {
        return Some(InvalidProfile);
      }
      seen := seen + [p.name];
    }
    return None;
  }

  lemma {:induction false} StoredWhereFound(profiles: seq<Profile>, p: Profile, i: nat)
    requires i <= |profiles| && forall k :: 0 <= k < i ==> profiles[k].name != p.name
    requires i < |profiles| ==> profiles[i].name == p.name
    ensures Stored(profiles, p) == if i < |profiles| then profiles[i := p] else profiles + [p]
  {
    if i > 0 {
      StoredWhereFound(profiles[1..], p, i - 1);
      assert profiles == [profiles[0]] + profiles[1..];
    }
  }

  lemma {:induction false} RecordedWhereFound(commands: seq<Lighting.Command>, c: Lighting.Command, i: nat)
    requires i <= |commands| && forall k :: 0 <= k < i ==> commands[k].channel != c.channel
    requires i < |commands| ==> commands[i].channel == c.channel
    ensures Recorded(commands, c) == if i < |commands| then commands[i := c] else commands + [c]
  {
    if i > 0 {
      RecordedWhereFound(commands[1..], c, i - 1);
      assert commands == [commands[0]] + commands[1..];
    }
  }

  /** Every profile but the one named. */
  method Retain(profiles: seq<Profile>, name: string) returns (kept: seq<Profile>)
    ensures kept == Without(profiles, name)
  {
    kept := [];
    for i := 0 to |profiles|
      invariant kept + Without(profiles[i..], name) == Without(profiles, name)
    {
      assert profiles[i..][1..] == profiles[i + 1..];
      if profiles[i].name != name {
        kept := kept + [profiles[i]];
      }
    }
    assert kept + Without([], name) == kept;
  }

  class Configuration {
    var document: Document
    var state: State
    var file: File

    function Value(): Config.Configuration
      reads this
    {
      Config.Configuration(document, state, file)
    }

    constructor Load(found: File, renamed: bool)
      ensures Value() == Config.Load(found, renamed) && ValidDocument(document)
    {
      LoadingIsExact(found, renamed);
      document, state, file := DefaultDocument(), Defaults, found;
      new;
      match found {
        case Absent =>
        case Garbage => Recover(renamed);
        case Holds(d) =>
          if d.schemaVersion > CONFIG_SCHEMA_VERSION || d.schemaVersion == 0 {
            Recover(renamed);
            return;
          }
          var refusal := CheckAll(d.profiles);
          if refusal.Some? || (d.activeProfile != SAFE_PROFILE_NAME && !Named(d.profiles, d.activeProfile)) {
            Recover(renamed);
            return;
          }
          document, state := d, Loaded;
      }
    }

    method Recover(renamed: bool)
      modifies this`state, this`file
      ensures state == Recovered && file == if renamed then Absent else old(file)
    {
      state := Recovered;
      if renamed {
        file := Absent;
      }
    }

    /** Put the edit in place, persist it, and take it back when the write fails. */
    method CommitChange(changed: Document, landed: bool) returns (error: Option<Error>)
      modifies this
      ensures Value() == Config.CommitChange(old(Value()), changed, landed)
      ensures error == if landed then None else Some(Io)
    {
      var previous := document;
      document := changed;
      error := Commit(landed);
      if error.Some? {
        document := previous;
      }
    }

    method Commit(landed: bool) returns (error: Option<Error>)
      modifies this
      ensures document == old(document).(schemaVersion := CONFIG_SCHEMA_VERSION)
      ensures error == if landed then None else Some(Io)
      ensures file == if landed then Holds(document) else old(file)
      ensures state == if landed && old(state).Defaults? then Loaded else old(state)
    {
      document := document.(schemaVersion := CONFIG_SCHEMA_VERSION);
      if !landed {
        return Some(Io);
      }
      file := Holds(document);
      if state.Defaults? {
        state := Loaded;
      }
      return None;
    }

    method SaveProfile(profile: Profile, landed: bool) returns (error: Option<Error>)
      modifies this
      ensures (Value(), error) == Perform(old(Value()), Save(profile), landed)
    {
      if !ValidProfile(profile) {
        return Some(InvalidProfile);
      }
      if profile.name == SAFE_PROFILE_NAME {
        return Some(DuplicateProfile);
      }
      var profiles := document.profiles;
      var i := 0;
      while i < |profiles| && profiles[i].name != profile.name
        invariant i <= |profiles| && forall k :: 0 <= k < i ==> profiles[k].name != profile.name
      {
        i := i + 1;
      }
      StoredWhereFound(profiles, profile, i);
      profiles := if i < |profiles| then profiles[i := profile] else profiles + [profile];
      error := CommitChange(document.(profiles := profiles), landed);
    }

    method Activate(name: string, landed: bool) returns (error: Option<Error>)
      modifies this
      ensures (Value(), error) == Perform(old(Value()), Operation.Activate(name), landed)
    {
      var profile := Find(Offered(document), name);
      if profile.None? {
        return Some(MissingActiveProfile);
      }
      error := CommitChange(document.(activeProfile := name), landed);
    }

    /** Both edits of a deletion, the profile gone and the safe one active, land in one commit. */
    method DeleteProfile(name: string, landed: bool) returns (error: Option<Error>, instead: Option<string>)
      modifies this
      ensures (Value(), error) == Perform(old(Value()), Delete(name), landed)
      ensures instead == if error.None? && old(document).activeProfile == name then Some(SAFE_PROFILE_NAME) else None
    {
      if name == SAFE_PROFILE_NAME {
        return Some(MissingActiveProfile), None;
      }
      if !Named(document.profiles, name) {
        return Some(MissingActiveProfile), None;
      }
      var kept := Retain(document.profiles, name);
      var active := if document.activeProfile == name then SAFE_PROFILE_NAME else document.activeProfile;
      instead := if document.activeProfile == name then Some(SAFE_PROFILE_NAME) else None;
      error := CommitChange(document.(profiles := kept, activeProfile := active), landed);
      if error.Some? {
        instead := None;
      }
    }

    method RecordProgram(program: Profiles.Program, landed: bool) returns (error: Option<Error>)
      modifies this
      ensures (Value(), error) == Perform(old(Value()), Operation.RecordProgram(program), landed)
    {
      if document.session.program == Some(program) {
        return None;
      }
      error := CommitChange(document.(session := document.session.(program := Some(program))), landed);
    }

    method RecordDisplay(preset: Display.Preset, landed: bool) returns (error: Option<Error>)
      modifies this
      ensures (Value(), error) == Perform(old(Value()), Operation.RecordDisplay(preset), landed)
    {
      if document.session.display == Some(preset) {
        return None;
      }
      error := CommitChange(document.(session := document.session.(display := Some(preset))), landed);
    }

    method RecordLighting(command: Lighting.Command, landed: bool) returns (error: Option<Error>)
      modifies this
      ensures (Value(), error) == Perform(old(Value()), Operation.RecordLighting(command), landed)
    {
      var lighting := document.session.lighting;
      if First(lighting, command.channel) == Some(command) {
        return None;
      }
      var i := 0;
      while i < |lighting| && lighting[i].channel != command.channel
        invariant i <= |lighting| && forall k :: 0 <= k < i ==> lighting[k].channel != command.channel
      {
        i := i + 1;
      }
      RecordedWhereFound(lighting, command, i);
      lighting := if i < |lighting| then lighting[i := command] else lighting + [command];
      error := CommitChange(document.(session := document.session.(lighting := lighting)), landed);
    }

    /** The lighting a start should replay: the active profile under the session. */
    method LightingToRestore() returns (commands: seq<Lighting.Command>)
      ensures commands == Config.LightingToRestore(document)
      ensures Replay(commands) == Replay(ActiveProfile(document).lighting) + SessionMap(document.session.lighting)
    {
      RestoreIsAnOverride(document);
      var profile, session := ActiveProfile(document).lighting, document.session.lighting;
      commands := [];
      for i := 0 to |profile|
        invariant commands == Overlay(profile[..i], session)
      {
        assert profile[..i + 1][..i] == profile[..i];
        var committed := First(session, profile[i].channel);
        commands := commands + [if committed.Some? then committed.value else profile[i]];
      }
      assert profile[..|profile|] == profile;
      for i := 0 to |session|
        invariant PushMissing(commands, session, i) == PushMissing(Overlay(profile, session), session, 0)
      {
        if First(commands, session[i].channel).None? {
          commands := commands + [session[i]];
        }
      }
    }
  }
}
