/**
 The configuration on values: the document, its edits, the file behind it, and what a start replays.
 Models crates/daemon/src/config.rs and crates/daemon/src/config/document.rs.
 */
module Config {
  import opened Basics
  import Profiles
  import Lighting
  import Display

  const SAFE_PROFILE_NAME: string := "Onboard safe"
  const CONFIG_SCHEMA_VERSION: nat := 4
  const PROFILE_NAME_MAX_LEN: nat := 48

  datatype DeviceId = KrakenBase | RgbController

  datatype Profile = Profile(
    name: string, program: Profiles.Program, device: Option<DeviceId>,
    lighting: seq<Lighting.Command>, display: Option<Display.Preset>)

  function SafeProfile(): Profile {
    Profile(SAFE_PROFILE_NAME, Profiles.Program.Onboard, None, [], None)
  }

  datatype Session = Session(
    program: Option<Profiles.Program>, lighting: seq<Lighting.Command>, display: Option<Display.Preset>)

  datatype Document = Document(
    schemaVersion: nat, activeProfile: string, profiles: seq<Profile>, session: Session)

  function DefaultDocument(): Document {
    Document(CONFIG_SCHEMA_VERSION, SAFE_PROFILE_NAME, [], Session(None, [], None))
  }

  datatype File = Absent | Garbage | Holds(document: Document)

  datatype State = Loaded | Defaults | Recovered

  datatype Configuration = Configuration(document: Document, state: State, file: File)

  datatype Error = InvalidProfile | DuplicateProfile | MissingActiveProfile | UnsupportedSchema | Parse | Io

  datatype Result<T> = Ok(value: T) | Err(error: Error)

  // ---------------------------------------------------------------- validity

  predicate Blank(c: char) {
    c == ' ' || c == '\t' || c == '\n' || c == '\r'
  }

  predicate ValidName(name: string) {
    0 < |name| <= PROFILE_NAME_MAX_LEN && !Blank(name[0]) && !Blank(name[|name| - 1])
  }

  predicate ValidProfile(p: Profile) {
    && ValidName(p.name)
    && Profiles.ValidateProgram(p.program).Accepted?
    && (forall c | c in p.lighting :: c.program.WellFormed())
    && (p.display.Some? ==> p.display.value.wellFormed)
  }

  predicate Named(profiles: seq<Profile>, name: string) {
    exists i | 0 <= i < |profiles| :: profiles[i].name == name
  }

  ghost predicate UniqueNames(profiles: seq<Profile>) {
    forall i, j :: 0 <= i < j < |profiles| ==> profiles[i].name != profiles[j].name
  }

  /** What the rest of the daemon relies on. */
  ghost predicate ValidDocument(d: Document) {
    && 1 <= d.schemaVersion <= CONFIG_SCHEMA_VERSION
    && UniqueNames(d.profiles)
    && (forall p :: p in d.profiles ==> p.name != SAFE_PROFILE_NAME && ValidProfile(p))
    && (d.activeProfile == SAFE_PROFILE_NAME || Named(d.profiles, d.activeProfile))
  }

  /** One recorded command per channel, which a load does not ask for. */
  ghost predicate DistinctChannels(commands: seq<Lighting.Command>) {
    forall i, j :: 0 <= i < j < |commands| ==> commands[i].channel != commands[j].channel
  }

  /** The checks over the profiles of a file, from `i` on. */
  function CheckProfiles(profiles: seq<Profile>, i: nat): Option<Error>
    requires i <= |profiles|
    decreases |profiles| - i
  {
    if i == |profiles| then None
    else if profiles[i].name == SAFE_PROFILE_NAME || Named(profiles[..i], profiles[i].name) then Some(DuplicateProfile)
    else if !ValidProfile(profiles[i]) then Some(InvalidProfile)
    else CheckProfiles(profiles, i + 1)
  }

  function ReadDocument(f: File): Result<Option<Document>> {
    match f
    case Absent => Ok(None)
    case Garbage => Err(Parse)
    case Holds(d) =>
      if d.schemaVersion > CONFIG_SCHEMA_VERSION || d.schemaVersion == 0 then Err(UnsupportedSchema)
      else if CheckProfiles(d.profiles, 0).Some? then Err(CheckProfiles(d.profiles, 0).value)
      else if d.activeProfile != SAFE_PROFILE_NAME && !Named(d.profiles, d.activeProfile) then Err(MissingActiveProfile)
      else Ok(Some(d))
  }

  /** Load, recovering to safe defaults; an unusable file is renamed aside when it can be. */
  function Load(f: File, renamed: bool): Configuration {
    match ReadDocument(f)
    case Ok(Some(d)) => Configuration(d, Loaded, f)
    case Ok(None) => Configuration(DefaultDocument(), Defaults, f)
    case Err(_) => Configuration(DefaultDocument(), Recovered, if renamed then Absent else f)
  }

  lemma UniqueMeansSplitLast(seen: seq<Profile>, p: Profile)
    requires UniqueNames(seen) && !Named(seen, p.name)
    ensures UniqueNames(seen + [p])
  {
    var all := seen + [p];
    forall i, j | 0 <= i < j < |all| ensures all[i].name != all[j].name {
      assert all[i] == seen[i];
    }
  }

  lemma {:induction false} ProfileChecksAreExact(profiles: seq<Profile>, i: nat)
    requires i <= |profiles|
    requires UniqueNames(profiles[..i])
    ensures CheckProfiles(profiles, i).None? <==>
            && UniqueNames(profiles)
            && forall k :: i <= k < |profiles| ==> profiles[k].name != SAFE_PROFILE_NAME && ValidProfile(profiles[k])
    decreases |profiles| - i
  {
    if i == |profiles| {
      assert profiles[..i] == profiles;
    } else if Named(profiles[..i], profiles[i].name) {
      var k :| 0 <= k < i && profiles[..i][k].name == profiles[i].name;
      assert profiles[k].name == profiles[i].name;
    } else {
      var seen := profiles[..i];
      assert profiles[..i + 1] == seen + [profiles[i]];
      UniqueMeansSplitLast(seen, profiles[i]);
      ProfileChecksAreExact(profiles, i + 1);
    }
  }

  /** A document is taken from the file exactly when it is valid, and a load always ends valid. */
  lemma LoadingIsExact(f: File, renamed: bool)
    ensures ReadDocument(f).Ok? <==> f.Absent? || (f.Holds? && ValidDocument(f.document))
    ensures ValidDocument(Load(f, renamed).document)
    ensures f.Holds? && ValidDocument(f.document) ==> Load(f, renamed) == Configuration(f.document, Loaded, f)
  {
    if f.Holds? {
      ProfileChecksAreExact(f.document.profiles, 0);
    }
  }

  // ---------------------------------------------------------------- commits

  /** Apply an edit and persist it. The file is replaced whole or not at all; a failed write takes
      the edit back. */
  function CommitChange(c: Configuration, changed: Document, landed: bool): Configuration {
    var stamped := changed.(schemaVersion := CONFIG_SCHEMA_VERSION);
    if landed then Configuration(stamped, if c.state.Defaults? then Loaded else c.state, Holds(stamped)) else c
  }

  function Stored(profiles: seq<Profile>, p: Profile): seq<Profile> {
    if profiles == [] then [p]
    else if profiles[0].name == p.name then [p] + profiles[1..]
    else [profiles[0]] + Stored(profiles[1..], p)
  }

  function Without(profiles: seq<Profile>, name: string): seq<Profile> {
    if profiles == [] then []
    else (if profiles[0].name == name then [] else [profiles[0]]) + Without(profiles[1..], name)
  }

  function Find(profiles: seq<Profile>, name: string): Option<Profile> {
    if profiles == [] then None
    else if profiles[0].name == name then Some(profiles[0])
    else Find(profiles[1..], name)
  }

  /** Every profile on offer, the built-in one first. */
  function Offered(d: Document): seq<Profile> {
    [SafeProfile()] + d.profiles
  }

  function ActiveProfile(d: Document): Profile {
    match Find(Offered(d), d.activeProfile)
    case Some(p) => p
    case None => SafeProfile()
  }

  function Recorded(commands: seq<Lighting.Command>, c: Lighting.Command): seq<Lighting.Command> {
    if commands == [] then [c]
    else if commands[0].channel == c.channel then [c] + commands[1..]
    else [commands[0]] + Recorded(commands[1..], c)
  }

  /** The first command held for a channel. */
  function First(commands: seq<Lighting.Command>, channel: byte): Option<Lighting.Command> {
    if commands == [] then None
    else if commands[0].channel == channel then Some(commands[0])
    else First(commands[1..], channel)
  }

  datatype Operation =
    | Save(profile: Profile)
    | Activate(name: string)
    | Delete(name: string)
    | RecordProgram(program: Profiles.Program)
    | RecordLighting(command: Lighting.Command)
    | RecordDisplay(preset: Display.Preset)

  /** The document an operation wants written: `Err` when it is refused, `Ok(None)` when there is
      nothing to write. */
  function Edit(d: Document, op: Operation): Result<Option<Document>> {
    match op
    case Save(p) =>
      if !ValidProfile(p) then Err(InvalidProfile)
      else if p.name == SAFE_PROFILE_NAME then Err(DuplicateProfile)
      else Ok(Some(d.(profiles := Stored(d.profiles, p))))
    case Activate(name) =>
      if Find(Offered(d), name).None? then Err(MissingActiveProfile)
      else Ok(Some(d.(activeProfile := name)))
    case Delete(name) =>
      if name == SAFE_PROFILE_NAME || !Named(d.profiles, name) then Err(MissingActiveProfile)
      else Ok(Some(d.(profiles := Without(d.profiles, name),
                      activeProfile := if d.activeProfile == name then SAFE_PROFILE_NAME else d.activeProfile)))
    case RecordProgram(program) =>
      if d.session.program == Some(program) then Ok(None)
      else Ok(Some(d.(session := d.session.(program := Some(program)))))
    case RecordLighting(c) =>
      if First(d.session.lighting, c.channel) == Some(c) then Ok(None)
      else Ok(Some(d.(session := d.session.(lighting := Recorded(d.session.lighting, c)))))
    case RecordDisplay(preset) =>
      if d.session.display == Some(preset) then Ok(None)
      else Ok(Some(d.(session := d.session.(display := Some(preset)))))
  }

  /** One operation over a disk that takes the write or not. */
  function Perform(c: Configuration, op: Operation, landed: bool): (Configuration, Option<Error>) {
    match Edit(c.document, op)
    case Err(e) => (c, Some(e))
    case Ok(None) => (c, None)
    case Ok(Some(changed)) => (CommitChange(c, changed, landed), if landed then None else Some(Io))
  }

  // ---------------------------------------------------------------- names stay in order

  lemma {:induction false} NamedMeansSplit(profiles: seq<Profile>, name: string)
    requires profiles != []
    ensures Named(profiles, name) <==> profiles[0].name == name || Named(profiles[1..], name)
  {
    if Named(profiles[1..], name) {
      var k :| 0 <= k < |profiles[1..]| && profiles[1..][k].name == name;
      assert profiles[k + 1].name == name;
    }
    if Named(profiles, name) && profiles[0].name != name {
      var k :| 0 <= k < |profiles| && profiles[k].name == name;
      assert profiles[1..][k - 1].name == name;
    }
  }

  lemma {:induction false} UniqueMeansSplit(p: Profile, rest: seq<Profile>)
    ensures UniqueNames([p] + rest) <==> UniqueNames(rest) && !Named(rest, p.name)
  {
    var all := [p] + rest;
    assert forall i :: 0 <= i < |rest| ==> rest[i] == all[i + 1];
    if UniqueNames(all) {
      forall i, j | 0 <= i < j < |rest| ensures rest[i].name != rest[j].name {
        assert all[i + 1].name != all[j + 1].name;
      }
      forall k | 0 <= k < |rest| ensures rest[k].name != p.name {
        assert all[0].name != all[k + 1].name;
      }
    }
    if UniqueNames(rest) && !Named(rest, p.name) {
      forall i, j | 0 <= i < j < |all| ensures all[i].name != all[j].name {
        assert all[j] == rest[j - 1];
        assert i > 0 ==> all[i] == rest[i - 1];
      }
    }
  }

  /** Storing replaces one profile or adds one: every other name keeps its profile. */
  lemma {:induction false} StoringKeepsOrder(profiles: seq<Profile>, p: Profile)
    requires UniqueNames(profiles)
    ensures var s := Stored(profiles, p);
      && UniqueNames(s)
      && (forall name :: Find(s, name) == if name == p.name then Some(p) else Find(profiles, name))
      && (forall q :: q in s ==> q == p || q in profiles)
  {
    if profiles != [] {
      var head, tail := profiles[0], profiles[1..];
      assert profiles == [head] + tail;
      UniqueMeansSplit(head, tail);
      if head.name == p.name {
        UniqueMeansSplit(p, tail);
      } else {
        StoringKeepsOrder(tail, p);
        FindIsNamed(Stored(tail, p), head.name);
        FindIsNamed(tail, head.name);
        UniqueMeansSplit(head, Stored(tail, p));
      }
    }
  }

  lemma {:induction false} FindIsNamed(profiles: seq<Profile>, name: string)
    ensures Find(profiles, name).Some? <==> Named(profiles, name)
    ensures Find(profiles, name).Some? ==> Find(profiles, name).value.name == name && Find(profiles, name).value in profiles
  {
    if profiles != [] {
      NamedMeansSplit(profiles, name);
      FindIsNamed(profiles[1..], name);
    }
  }

  lemma {:induction false} RemovingKeepsOrder(profiles: seq<Profile>, name: string)
    requires UniqueNames(profiles)
    ensures var s := Without(profiles, name);
      && UniqueNames(s)
      && (forall other :: Find(s, other) == if other == name then None else Find(profiles, other))
      && (forall q :: q in s ==> q in profiles)
  {
    if profiles != [] {
      var head, tail := profiles[0], profiles[1..];
      assert profiles == [head] + tail;
      UniqueMeansSplit(head, tail);
      RemovingKeepsOrder(tail, name);
      if head.name != name {
        FindIsNamed(Without(tail, name), head.name);
        FindIsNamed(tail, head.name);
        UniqueMeansSplit(head, Without(tail, name));
        assert Without(profiles, name) == [head] + Without(tail, name);
      } else {
        assert Without(profiles, name) == Without(tail, name);
      }
    }
  }

  lemma {:induction false} RecordingReplacesOne(commands: seq<Lighting.Command>, c: Lighting.Command, channel: byte)
    ensures First(Recorded(commands, c), channel) == if channel == c.channel then Some(c) else First(commands, channel)
  {
    if commands != [] && commands[0].channel != c.channel {
      RecordingReplacesOne(commands[1..], c, channel);
    }
  }

  lemma {:induction false} FirstMeansHeld(commands: seq<Lighting.Command>, channel: byte)
    ensures First(commands, channel).None? <==> forall k :: 0 <= k < |commands| ==> commands[k].channel != channel
  {
    if commands != [] {
      FirstMeansHeld(commands[1..], channel);
      if First(commands[1..], channel).Some? {
        var k :| 0 <= k < |commands[1..]| && commands[1..][k].channel == channel;
        assert commands[k + 1].channel == channel;
      }
    }
  }

  lemma DistinctFromTheHead(commands: seq<Lighting.Command>)
    requires commands != []
    ensures DistinctChannels(commands) <==>
      DistinctChannels(commands[1..]) && First(commands[1..], commands[0].channel).None?
  {
    var head, tail := commands[0], commands[1..];
    FirstMeansHeld(tail, head.channel);
    assert commands == [head] + tail;
    if DistinctChannels(commands) {
      assert forall k :: 0 <= k < |tail| ==> tail[k] == commands[k + 1];
    }
  }

  /** Recording neither repeats a channel nor undoes a repetition. */
  lemma {:induction false} RecordingKeepsChannels(commands: seq<Lighting.Command>, c: Lighting.Command)
    ensures DistinctChannels(Recorded(commands, c)) <==> DistinctChannels(commands)
  {
    if commands != [] {
      var recorded := Recorded(commands, c);
      DistinctFromTheHead(commands);
      DistinctFromTheHead(recorded);
      if commands[0].channel != c.channel {
        RecordingKeepsChannels(commands[1..], c);
        RecordingReplacesOne(commands[1..], c, commands[0].channel);
      }
    }
  }

  lemma SavingKeepsValid(d: Document, p: Profile)
    requires ValidDocument(d) && ValidProfile(p) && p.name != SAFE_PROFILE_NAME
    ensures ValidDocument(d.(profiles := Stored(d.profiles, p)))
  {
    StoringKeepsOrder(d.profiles, p);
    FindIsNamed(d.profiles, d.activeProfile);
    FindIsNamed(Stored(d.profiles, p), d.activeProfile);
  }

  lemma DeletingKeepsValid(d: Document, name: string)
    requires ValidDocument(d)
    ensures ValidDocument(d.(profiles := Without(d.profiles, name),
                             activeProfile := if d.activeProfile == name then SAFE_PROFILE_NAME else d.activeProfile))
  {
    RemovingKeepsOrder(d.profiles, name);
    FindIsNamed(d.profiles, d.activeProfile);
    FindIsNamed(Without(d.profiles, name), d.activeProfile);
  }

  lemma ActivatingKeepsValid(d: Document, name: string)
    requires ValidDocument(d) && Find(Offered(d), name).Some?
    ensures ValidDocument(d.(activeProfile := name))
  {
    FindIsNamed(Offered(d), name);
    NamedMeansSplit(Offered(d), name);
    assert Offered(d)[1..] == d.profiles;
  }

  lemma EditKeepsValid(d: Document, op: Operation)
    requires ValidDocument(d) && Edit(d, op).Ok? && Edit(d, op).value.Some?
    ensures ValidDocument(Edit(d, op).value.value.(schemaVersion := CONFIG_SCHEMA_VERSION))
    ensures DistinctChannels(Edit(d, op).value.value.session.lighting) <==> DistinctChannels(d.session.lighting)
  {
    match op
    case Save(p) => SavingKeepsValid(d, p);
    case Activate(name) => ActivatingKeepsValid(d, name);
    case Delete(name) => DeletingKeepsValid(d, name);
    case RecordLighting(c) =>
      RecordingKeepsChannels(d.session.lighting, c);
    case _ =>
  }

  // ---------------------------------------------------------------- any run of operations

  datatype Request = Request(op: Operation, landed: bool)

  function Run(c: Configuration, requests: seq<Request>): Configuration {
    if requests == [] then c else
    var before, r := Run(c, requests[..|requests| - 1]), requests[|requests| - 1];
    Perform(before, r.op, r.landed).0
  }

  /** Some request of the run reached the disk. */
  ghost predicate Wrote(c: Configuration, requests: seq<Request>) {
    requests != [] &&
    (Wrote(c, requests[..|requests| - 1]) ||
     var before, r := Run(c, requests[..|requests| - 1]), requests[|requests| - 1];
     r.landed && Edit(before.document, r.op).Ok? && Edit(before.document, r.op).value.Some?)
  }

  /** From any file, over any operations and failing writes: the names stay unique, none shadows the
      safe profile, the active one resolves, and as soon as anything was written the file holds
      exactly the document in memory. The session names each channel once if and only if the file did, which a
      load does not check. */
  lemma {:induction false} ConfigurationStaysValid(f: File, renamed: bool, requests: seq<Request>)
    ensures var start := Load(f, renamed);
      var c := Run(start, requests);
      && ValidDocument(c.document)
      && (if Wrote(start, requests) then c.file == Holds(c.document)
          else c == start)
      && (DistinctChannels(c.document.session.lighting) <==> DistinctChannels(start.document.session.lighting))
  {
    var start := Load(f, renamed);
    if requests == [] {
      LoadingIsExact(f, renamed);
    } else {
      ConfigurationStaysValid(f, renamed, requests[..|requests| - 1]);
      var before, r := Run(start, requests[..|requests| - 1]), requests[|requests| - 1];
      var e := Edit(before.document, r.op);
      if e.Ok? && e.value.Some? {
        EditKeepsValid(before.document, r.op);
      }
    }
  }

  /** A file whose session names a channel twice is loaded as it is. */
  lemma ALoadMayRepeatAChannel(first: Lighting.Program, last: Lighting.Program)
    ensures var lighting := [Lighting.Command(1, first), Lighting.Command(1, last)];
      var d := DefaultDocument().(session := Session(None, lighting, None));
      Load(Holds(d), true) == Configuration(d, Loaded, Holds(d)) && !DistinctChannels(d.session.lighting)
  {
    var lighting := [Lighting.Command(1, first), Lighting.Command(1, last)];
    LoadingIsExact(Holds(DefaultDocument().(session := Session(None, lighting, None))), true);
    assert lighting[0].channel == lighting[1].channel;
  }

  /** An operation that answers with an error changed neither the document nor the file. */
  lemma FailureChangesNothing(c: Configuration, op: Operation, landed: bool)
    ensures Perform(c, op, landed).1.Some? ==> Perform(c, op, landed).0 == c
  {
  }

  /** The file holds the document in memory, or holds nothing usable while that one is the default. */
  ghost predicate Reloadable(c: Configuration) {
    && ValidDocument(c.document)
    && (c.file == Holds(c.document)
        || (c.document == DefaultDocument() && (ReadDocument(c.file).Err? || ReadDocument(c.file) == Ok(None))))
  }

  lemma LoadIsReloadable(f: File, renamed: bool)
    ensures Reloadable(Load(f, renamed))
  {
    LoadingIsExact(f, renamed);
  }

  lemma PerformKeepsReloadable(c: Configuration, op: Operation, landed: bool)
    requires Reloadable(c)
    ensures Reloadable(Perform(c, op, landed).0)
  {
    var e := Edit(c.document, op);
    if e.Ok? && e.value.Some? {
      EditKeepsValid(c.document, op);
    }
  }

  /** A start loads exactly the document the last one ended with, whatever the file was before and
      whichever of its writes failed. */
  lemma RestartLoadsTheDocument(c: Configuration, renamed: bool)
    requires Reloadable(c)
    ensures Load(c.file, renamed).document == c.document
  {
    LoadingIsExact(c.file, renamed);
  }

  // ---------------------------------------------------------------- what an operation does

  lemma {:induction false} StoredIsFound(profiles: seq<Profile>, p: Profile, name: string)
    ensures Find(Stored(profiles, p), name) == if name == p.name then Some(p) else Find(profiles, name)
  {
    if profiles != [] && profiles[0].name != p.name {
      StoredIsFound(profiles[1..], p, name);
    }
  }

  lemma {:induction false} RemovedIsNotFound(profiles: seq<Profile>, gone: string, name: string)
    ensures Find(Without(profiles, gone), name) == if name == gone then None else Find(profiles, name)
  {
    if profiles != [] {
      RemovedIsNotFound(profiles[1..], gone, name);
      if profiles[0].name != gone {
        assert Without(profiles, gone)[1..] == Without(profiles[1..], gone);
      } else {
        assert Without(profiles, gone) == Without(profiles[1..], gone);
      }
    }
  }

  /** Removing keeps every other profile in its order. */
  lemma {:induction false} RemovingIsPiecewise(a: seq<Profile>, b: seq<Profile>, name: string)
    ensures Without(a + b, name) == Without(a, name) + Without(b, name)
  {
    if a == [] {
      assert a + b == b;
    } else {
      assert (a + b)[1..] == a[1..] + b;
      RemovingIsPiecewise(a[1..], b, name);
    }
  }

  /** On offer are the built-in profile under its name and the stored ones under theirs. */
  lemma OfferedIsFound(d: Document, name: string)
    ensures Find(Offered(d), name) == if name == SAFE_PROFILE_NAME then Some(SafeProfile()) else Find(d.profiles, name)
  {
    assert Offered(d)[1..] == d.profiles;
  }

  /** A save succeeds exactly for a valid profile of another name than the built-in one on a disk that takes it; then
      that profile, as it is, is the one on offer under its name, and nothing else changed. */
  lemma ASavedProfileIsOnOffer(c: Configuration, p: Profile, landed: bool, other: string)
    ensures var (after, error) := Perform(c, Save(p), landed);
      && error == (if !ValidProfile(p) then Some(InvalidProfile)
                   else if p.name == SAFE_PROFILE_NAME then Some(DuplicateProfile)
                   else if !landed then Some(Io) else None)
      && (error.None? ==>
            && Find(Offered(after.document), p.name) == Some(p)
            && (other != p.name ==> Find(Offered(after.document), other) == Find(Offered(c.document), other))
            && after.document.activeProfile == c.document.activeProfile
            && after.document.session == c.document.session)
  {
    var after := Perform(c, Save(p), landed).0;
    OfferedIsFound(after.document, p.name);
    OfferedIsFound(after.document, other);
    OfferedIsFound(c.document, other);
    StoredIsFound(c.document.profiles, p, p.name);
    StoredIsFound(c.document.profiles, p, other);
  }

  /** An activation succeeds exactly for a profile on offer on a disk that takes it; then that profile is the active
      one, and nothing else changed. */
  lemma AnActivatedProfileIsActive(c: Configuration, name: string, landed: bool)
    ensures var (after, error) := Perform(c, Activate(name), landed);
      && error == (if name != SAFE_PROFILE_NAME && !Named(c.document.profiles, name) then Some(MissingActiveProfile)
                   else if !landed then Some(Io) else None)
      && (error.None? ==>
            && after.document.activeProfile == name && ActiveProfile(after.document).name == name
            && Some(ActiveProfile(after.document)) == Find(Offered(c.document), name)
            && after.document.profiles == c.document.profiles
            && after.document.session == c.document.session)
  {
    var after := Perform(c, Activate(name), landed).0;
    OfferedIsFound(c.document, name);
    OfferedIsFound(after.document, name);
    FindIsNamed(c.document.profiles, name);
  }

  /** A deletion succeeds exactly for a stored profile on a disk that takes it; then nothing is on offer under its
      name, every other profile is as it was, and the active one is too unless it was the one deleted. */
  lemma ADeletedProfileIsGone(c: Configuration, name: string, landed: bool, other: string)
    ensures var (after, error) := Perform(c, Delete(name), landed);
      && error == (if name == SAFE_PROFILE_NAME || !Named(c.document.profiles, name) then Some(MissingActiveProfile)
                   else if !landed then Some(Io) else None)
      && (error.None? ==>
            && Find(Offered(after.document), name).None?
            && (other != name ==> Find(Offered(after.document), other) == Find(Offered(c.document), other))
            && ActiveProfile(after.document)
                 == (if c.document.activeProfile == name then SafeProfile() else ActiveProfile(c.document))
            && after.document.session == c.document.session)
  {
    var after := Perform(c, Delete(name), landed).0;
    var profiles, active := c.document.profiles, c.document.activeProfile;
    OfferedIsFound(after.document, name);
    OfferedIsFound(after.document, other);
    OfferedIsFound(c.document, other);
    OfferedIsFound(after.document, after.document.activeProfile);
    OfferedIsFound(c.document, active);
    RemovedIsNotFound(profiles, name, name);
    RemovedIsNotFound(profiles, name, other);
    RemovedIsNotFound(profiles, name, active);
  }

  /** A record changes its own part of the session and nothing else, and is only written when it changes something. */
  lemma ARecordChangesItsOwnPart(c: Configuration, op: Operation, landed: bool)
    requires op.RecordProgram? || op.RecordLighting? || op.RecordDisplay?
    ensures var (after, error) := Perform(c, op, landed);
      var before, session := c.document.session, after.document.session;
      && after.document.profiles == c.document.profiles && after.document.activeProfile == c.document.activeProfile
      && (error.None? ==> session.program == if op.RecordProgram? then Some(op.program) else before.program)
      && (error.None? ==> session.display == if op.RecordDisplay? then Some(op.preset) else before.display)
      && (!op.RecordLighting? ==> session.lighting == before.lighting)
      && (error.None? && op.RecordLighting? ==>
            First(session.lighting, op.command.channel) == Some(op.command)
            && forall channel: byte :: channel != op.command.channel ==>
                 First(session.lighting, channel) == First(before.lighting, channel))
      && (error == None || error == Some(Io))
  {
    if op.RecordLighting? {
      forall channel: byte
        ensures First(Recorded(c.document.session.lighting, op.command), channel)
             == if channel == op.command.channel then Some(op.command) else First(c.document.session.lighting, channel)
      {
        RecordingReplacesOne(c.document.session.lighting, op.command, channel);
      }
    }
  }

  /** Whatever is written is written at the current version, and is what the file then holds; a configuration that had
      only defaults counts as loaded from then on, and a recovered one stays recovered. */
  lemma AWriteIsCurrent(c: Configuration, op: Operation)
    ensures var (after, error) := Perform(c, op, true);
      error.None? && Edit(c.document, op) != Ok(None) ==>
        && after.document.schemaVersion == CONFIG_SCHEMA_VERSION && after.file == Holds(after.document)
        && after.state == if c.state.Defaults? then Loaded else c.state
  {
  }

  /** A load says how it went: from the file exactly when that is usable, from defaults exactly when there is none,
      and otherwise recovered, with the unusable file out of the way if it could be renamed and untouched if not. */
  lemma ALoadSaysHowItWent(f: File, renamed: bool)
    ensures var c := Load(f, renamed);
      && (c.state == Loaded <==> f.Holds? && ValidDocument(f.document))
      && (c.state == Defaults <==> f.Absent?)
      && (c.state != Loaded ==> c.document == DefaultDocument())
      && c.file == if c.state == Recovered && renamed then Absent else f
  {
    LoadingIsExact(f, renamed);
  }

  // ---------------------------------------------------------------- what a start replays

  function Overlay(profile: seq<Lighting.Command>, session: seq<Lighting.Command>): seq<Lighting.Command> {
    if profile == [] then [] else
    var c := profile[|profile| - 1];
    Overlay(profile[..|profile| - 1], session)
    + [if First(session, c.channel).Some? then First(session, c.channel).value else c]
  }

  /** Push each command of the session whose channel is not held yet, from `i` on. */
  function PushMissing(commands: seq<Lighting.Command>, session: seq<Lighting.Command>, i: nat): seq<Lighting.Command>
    requires i <= |session|
    decreases |session| - i
  {
    if i == |session| then commands
    else if First(commands, session[i].channel).Some? then PushMissing(commands, session, i + 1)
    else PushMissing(commands + [session[i]], session, i + 1)
  }

  function LightingToRestore(d: Document): seq<Lighting.Command> {
    PushMissing(Overlay(ActiveProfile(d).lighting, d.session.lighting), d.session.lighting, 0)
  }

  /** What a list of commands asks for: the last program it names per channel. What a controller is left
      showing also depends on the cadence, which refuses a second command that comes too soon. */
  function Replay(commands: seq<Lighting.Command>): map<byte, Lighting.Program> {
    if commands == [] then map[] else
    var c := commands[|commands| - 1];
    Replay(commands[..|commands| - 1])[c.channel := c.program]
  }

  /** The first program a list of commands names per channel: what a session holds. */
  function SessionMap(session: seq<Lighting.Command>): map<byte, Lighting.Program> {
    if session == [] then map[] else SessionMap(session[1..])[session[0].channel := session[0].program]
  }

  lemma {:induction false} SessionMapIsFirst(session: seq<Lighting.Command>, channel: byte)
    ensures channel in SessionMap(session) <==> First(session, channel).Some?
    ensures channel in SessionMap(session) ==> SessionMap(session)[channel] == First(session, channel).value.program
    ensures First(session, channel).Some? ==> First(session, channel).value.channel == channel
  {
    if session != [] {
      SessionMapIsFirst(session[1..], channel);
    }
  }

  lemma {:induction false} OverlayReplays(profile: seq<Lighting.Command>, session: seq<Lighting.Command>)
    ensures var r := Replay(Overlay(profile, session));
      && r.Keys == Replay(profile).Keys
      && forall c :: c in r ==> r[c] == if c in SessionMap(session) then SessionMap(session)[c] else Replay(profile)[c]
  {
    if profile != [] {
      var init, last := profile[..|profile| - 1], profile[|profile| - 1];
      OverlayReplays(init, session);
      SessionMapIsFirst(session, last.channel);
      var o := Overlay(profile, session);
      assert o[..|o| - 1] == Overlay(init, session);
    }
  }

  lemma {:induction false} FirstMeansReplayed(commands: seq<Lighting.Command>, channel: byte)
    ensures First(commands, channel).Some? <==> channel in Replay(commands)
  {
    if commands != [] {
      var init, last := commands[..|commands| - 1], commands[|commands| - 1];
      FirstMeansReplayed(init, channel);
      FirstOfSum(init, [last], channel);
      assert commands == init + [last];
    }
  }

  lemma {:induction false} FirstOfSum(a: seq<Lighting.Command>, b: seq<Lighting.Command>, channel: byte)
    ensures First(a + b, channel) == if First(a, channel).Some? then First(a, channel) else First(b, channel)
  {
    if a == [] {
      assert a + b == b;
    } else {
      assert (a + b)[1..] == a[1..] + b;
      FirstOfSum(a[1..], b, channel);
    }
  }

  lemma {:induction false} PushingReplays(commands: seq<Lighting.Command>, session: seq<Lighting.Command>, i: nat)
    requires i <= |session|
    ensures Replay(PushMissing(commands, session, i)) == SessionMap(session[i..]) + Replay(commands)
    decreases |session| - i
  {
    if i < |session| {
      FirstMeansReplayed(commands, session[i].channel);
      assert session[i..][1..] == session[i + 1..];
      if First(commands, session[i].channel).Some? {
        PushingReplays(commands, session, i + 1);
      } else {
        var more := commands + [session[i]];
        PushingReplays(more, session, i + 1);
        assert more[..|more| - 1] == commands;
      }
    }
  }

  /** The restore asks for every channel to be where the session has it, and where the profile has it last
      on the channels the session never committed; for any lists, repeats included. */
  lemma RestoreIsAnOverride(d: Document)
    ensures Replay(LightingToRestore(d)) == Replay(ActiveProfile(d).lighting) + SessionMap(d.session.lighting)
  {
    var profile, session := ActiveProfile(d).lighting, d.session.lighting;
    OverlayReplays(profile, session);
    PushingReplays(Overlay(profile, session), session, 0);
    assert session[0..] == session;
  }

  datatype ProgramToRestore = ProgramToRestore(program: Profiles.Program, profile: Option<string>)

  function RestoredProgram(d: Document): Option<ProgramToRestore> {
    var held :=
      match d.session.program
      case Some(program) => ProgramToRestore(program, None)
      case None => ProgramToRestore(ActiveProfile(d).program, Some(ActiveProfile(d).name));
    if held.program.Onboard? then None else Some(held)
  }

  function RestoredDisplay(d: Document): Option<Display.Preset> {
    if d.session.display.Some? then d.session.display else ActiveProfile(d).display
  }
}
