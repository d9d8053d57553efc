/**
 The bounded event log and its export, swept of every registered secret.
 Models `DiagnosticsLog` in crates/core/src/diagnostics.rs.
 */
module EventLog {
  import opened Basics
  import opened Redaction
  import opened RedactorObject

  const DEFAULT_CAPACITY: nat := 512

  /** What is left of a history in a log that holds `capacity` events. */
  function Kept<T>(history: seq<T>, capacity: nat): seq<T> {
    if |history| <= capacity then history else history[|history| - capacity..]
  }

  /** Something the log or the record serializes: the strings that must read back as the name of a
      variant, and the rest of it, where any string does. */
  datatype Tagged = Tagged(tags: seq<string>, body: Json)

  function Texts(tags: seq<string>): seq<Json> {
    seq(|tags|, i requires 0 <= i < |tags| => Text(tags[i]))
  }

  function Serialized(t: Tagged): Json {
    Object([("tags", Array(Texts(t.tags))), ("body", t.body)])
  }

  /** The document before any sweep: the frame, the capability record and the events. */
  function Document(version: string, capabilities: Option<Tagged>, events: seq<Tagged>): Json {
    Object([("daemon_version", Text(version)),
            ("capabilities", if capabilities.Some? then Serialized(capabilities.value) else Scalar(0)),
            ("events", Array(seq(|events|, i requires 0 <= i < |events| => Serialized(events[i]))))])
  }

  /** The names of variants in what is exported. */
  predicate Names(capabilities: Option<Tagged>, events: seq<Tagged>, tag: string) {
    || (capabilities.Some? && tag in capabilities.value.tags)
    || exists i | 0 <= i < |events| :: tag in events[i].tags
  }

  predicate TagsSurvive(secrets: seq<Secret>, tags: seq<string>) {
    forall tag | tag in tags :: Redact(secrets, tag) == tag
  }

  /** The swept document still reads as an export: every name of a variant came through unchanged. */
  predicate Rebuilds(secrets: seq<Secret>, capabilities: Option<Tagged>, events: seq<Tagged>) {
    && (capabilities.Some? ==> TagsSurvive(secrets, capabilities.value.tags))
    && forall i | 0 <= i < |events| :: TagsSurvive(secrets, events[i].tags)
  }

  /** What leaves: the swept document, or its frame alone, unswept, when that no longer reads. */
  function Exported(secrets: seq<Secret>, version: string, capabilities: Option<Tagged>, events: seq<Tagged>): Json {
    if Rebuilds(secrets, capabilities, events) then RedactJson(secrets, Document(version, capabilities, events))
    else Document(version, None, [])
  }

  /** A tag survives the sweep exactly when it holds no secret. */
  lemma TagSurvivesExactlyWhen(secrets: seq<Secret>, tag: string)
    requires forall u :: u in secrets ==> Apart(u)
    ensures Redact(secrets, tag) == tag <==> forall u :: u in secrets ==> !Contains(tag, u)
  {
    RedactionIsComplete(secrets, tag);
    if forall u :: u in secrets ==> !Contains(tag, u) {
      CleanTextIsKept(secrets, tag);
    }
  }

  /** A sweep breaks an export exactly when a secret occurs in the name of a variant. */
  lemma SweepRebuildsExactlyWhen(secrets: seq<Secret>, capabilities: Option<Tagged>, events: seq<Tagged>)
    requires forall u :: u in secrets ==> Apart(u)
    ensures Rebuilds(secrets, capabilities, events)
      <==> forall tag, u :: Names(capabilities, events, tag) && u in secrets ==> !Contains(tag, u)
  {
    forall tag: string
      ensures Redact(secrets, tag) == tag <==> forall u :: u in secrets ==> !Contains(tag, u)
    {
      TagSurvivesExactlyWhen(secrets, tag);
    }
    if forall tag, u :: Names(capabilities, events, tag) && u in secrets ==> !Contains(tag, u) {
      forall i, tag | 0 <= i < |events| && tag in events[i].tags ensures Redact(secrets, tag) == tag {
        assert Names(capabilities, events, tag);
      }
      forall tag | capabilities.Some? && tag in capabilities.value.tags ensures Redact(secrets, tag) == tag {
        assert Names(capabilities, events, tag);
      }
    }
  }

  /** No export carries a registered secret in any string value, with one exception that is exact: when a
      secret occurs in the name of a variant, the export still carries the daemon's own version as it is. */
  lemma ExportIsCleanExactlyWhen(
      secrets: seq<Secret>, s: string, version: string, capabilities: Option<Tagged>, events: seq<Tagged>)
    requires forall u :: u in secrets ==> Apart(u)
    requires s in secrets
    ensures Clean(Exported(secrets, version, capabilities, events), s)
      <==> || (forall tag, u :: Names(capabilities, events, tag) && u in secrets ==> !Contains(tag, u))
           || !Contains(version, s)
  {
    SweepRebuildsExactlyWhen(secrets, capabilities, events);
    if Rebuilds(secrets, capabilities, events) {
      TreeRedactionIsComplete(secrets, Document(version, capabilities, events), s);
    } else {
      FrameIsCleanExactlyWhen(version, s);
    }
  }

  lemma FrameIsCleanExactlyWhen(version: string, s: string)
    ensures Clean(Document(version, None, []), s) <==> !Contains(version, s)
  {
    var members := Document(version, None, []).members;
    assert members[0].1 == Text(version) && members[1].1 == Scalar(0) && members[2].1 == Array([]);
    assert Clean(members[0].1, s) <==> !Contains(version, s);
    assert Clean(members[1].1, s) && Clean(members[2].1, s);
  }

  /** A readable export carries every event, in order, each swept and otherwise as it was; where nothing holds a
      secret it is the document itself. */
  lemma EveryEventLeaves(
      secrets: seq<Secret>, version: string, capabilities: Option<Tagged>, events: seq<Tagged>)
    requires Rebuilds(secrets, capabilities, events)
    ensures var e := Exported(secrets, version, capabilities, events);
      && e.Object? && |e.members| == 3
      && e.members[0] == ("daemon_version", Text(Redact(secrets, version)))
      && e.members[1].0 == "capabilities"
      && e.members[1].1 == (if capabilities.Some? then RedactJson(secrets, Serialized(capabilities.value)) else Scalar(0))
      && e.members[2].0 == "events" && e.members[2].1.Array? && |e.members[2].1.items| == |events|
      && (forall i :: 0 <= i < |events| ==> e.members[2].1.items[i] == RedactJson(secrets, Serialized(events[i])))
      && SameShape(Document(version, capabilities, events), e)
  {
    var doc := Document(version, capabilities, events);
    SweepingKeepsTheShape(secrets, doc);
    assert Exported(secrets, version, capabilities, events) == RedactJson(secrets, doc);
    var held := if capabilities.Some? then Serialized(capabilities.value) else Scalar(0);
    assert doc.members[1] == ("capabilities", held) && RedactJson(secrets, Scalar(0)) == Scalar(0);
    assert RedactJson(secrets, doc).members[1] == ("capabilities", RedactJson(secrets, held));
    assert doc.members[0] == ("daemon_version", Text(version));
    assert RedactJson(secrets, Text(version)) == Text(Redact(secrets, version));
    var all := doc.members[2].1;
    assert RedactJson(secrets, doc).members[2] == ("events", RedactJson(secrets, all));
    forall i | 0 <= i < |events|
      ensures RedactJson(secrets, all).items[i] == RedactJson(secrets, Serialized(events[i]))
    {
      assert all.items[i] == Serialized(events[i]);
    }
  }

  /** Nothing to sweep, nothing swept. */
  lemma ACleanDocumentLeavesAsItIs(
      secrets: seq<Secret>, version: string, capabilities: Option<Tagged>, events: seq<Tagged>)
    requires Rebuilds(secrets, capabilities, events)
    requires forall s :: s in secrets ==> Clean(Document(version, capabilities, events), s)
    ensures Exported(secrets, version, capabilities, events) == Document(version, capabilities, events)
  {
    CleanTreeIsKept(secrets, Document(version, capabilities, events));
  }

  /** What cannot be read back leaves no event and no capability. */
  lemma ARefusedExportIsItsFrame(
      secrets: seq<Secret>, version: string, capabilities: Option<Tagged>, events: seq<Tagged>)
    requires !Rebuilds(secrets, capabilities, events)
    ensures var e := Exported(secrets, version, capabilities, events);
      && e.Object? && |e.members| == 3
      && e.members[0].1 == Text(version) && e.members[1].1 == Scalar(0) && e.members[2].1 == Array([])
  {
  }

  /** A log holds the end of its history, all of it while there is room. */
  lemma TheNewestAreKept<T>(history: seq<T>, capacity: nat)
    ensures |Kept(history, capacity)| == if |history| < capacity then |history| else capacity
    ensures history == history[..|history| - |Kept(history, capacity)|] + Kept(history, capacity)
  {
  }

  /** The events are the history without its first `gone`. */
  ghost predicate HeldFrom<T>(history: seq<T>, events: seq<T>, gone: nat) {
    gone <= |history| && events == history[gone..]
  }

  lemma Popping<T>(history: seq<T>, events: seq<T>, gone: nat)
    requires HeldFrom(history, events, gone) && events != []
    ensures HeldFrom(history, events[1..], gone + 1)
  {
    assert events == history[gone..] && history[gone..][1..] == history[gone + 1..];
  }

  /** One more at the end of what is held is the newest of a history one longer. */
  lemma Appending<T>(history: seq<T>, events: seq<T>, gone: nat, event: T, capacity: nat)
    requires HeldFrom(history, events, gone) && |events| < capacity
    requires gone > 0 ==> |events| == capacity - 1
    ensures events + [event] == Kept(history + [event], capacity)
  {
    var more := history + [event];
    assert more[gone..] == history[gone..] + [event];
    assert more[0..] == more;
  }

  class DiagnosticsLog {
    var events: seq<Tagged>
    const capacity: nat
    const redactor: Redactor
    /** Everything ever recorded. */
    ghost var history: seq<Tagged>

    ghost predicate Valid()
      reads this, redactor
    {
      capacity >= 1 && redactor.Valid() && events == Kept(history, capacity)
    }

    constructor (capacity: nat)
      ensures Valid() && history == [] && redactor.secrets == [] && fresh(redactor)
      ensures this.capacity == if capacity == 0 then 1 else capacity
    {
      this.capacity := if capacity == 0 then 1 else capacity;
      redactor := new Redactor();
      events, history := [], [];
    }

    constructor Default()
      ensures Valid() && history == [] && redactor.secrets == [] && fresh(redactor)
      ensures capacity == DEFAULT_CAPACITY
    {
      capacity := DEFAULT_CAPACITY;
      redactor := new Redactor();
      events, history := [], [];
    }

    method AddSecret(secret: string)
      requires Valid()
      modifies redactor
      ensures Valid()
      ensures redactor.secrets ==
        if MIN_SECRET_LEN <= |secret| && secret !in old(redactor.secrets) then old(redactor.secrets) + [secret]
        else old(redactor.secrets)
    {
      redactor.AddSecret(secret);
    }

    /** Append one event, making room from the front. What is held is always the newest of the history. */
    method Record(event: Tagged)
      requires Valid()
      modifies this
      ensures Valid() && history == old(history) + [event]
      ensures events != [] && events[|events| - 1] == event
    {
      ghost var gone: nat := if |history| <= capacity then 0 else |history| - capacity;
      assert HeldFrom(history, events, gone) by {
        assert history[0..] == history;
      }
      while |events| >= capacity
        invariant history == old(history) && HeldFrom(history, events, gone)
        invariant |events| <= capacity && (gone > 0 ==> |events| >= capacity - 1)
      {
        Popping(history, events, gone);
        events := events[1..];
        gone := gone + 1;
      }
      Appending(history, events, gone, event, capacity);
      events := events + [event];
      history := history + [event];
    }

    /** Everything swept in one pass, or nothing that could not be. */
    method Export(version: string, capabilities: Option<Tagged>) returns (document: Json)
      requires Valid()
      ensures document == Exported(redactor.secrets, version, capabilities, events)
    {
      document := redactor.RedactTree(Document(version, capabilities, events));
      if !Rebuilds(redactor.secrets, capabilities, events) {
        document := Document(version, None, []);
      }
    }
  }
}
