/**
 The panel executor on values: what reaches the glass, what is on record about it, and the clock an
 animation walks. Models crates/daemon/src/display.rs; `DisplayWriter.dfy` holds the class.
 */
module Display {
  import opened Basics

  /** The finished bytes of one picture. */
  type Frame = seq<byte>

  datatype Layout = Image | Readings | Still

  /** What the operator asked for. `content` stands for everything the renderer reads beside the
      brightness and the kind of mode, `wellFormed` for the checks of its own fields. */
  datatype Preset = Preset(layout: Layout, brightness: byte, content: int, wellFormed: bool) {
    predicate UsesImage() { layout.Image? }
    predicate UsesReadings() { layout.Readings? }
  }

  /** What the panel is showing, and at which brightness. */
  datatype Panel = Panel(glass: Option<Frame>, level: Option<byte>)

  /** How the two transfers of one picture end. A brightness report that fails may have landed; a
      frame that fails leaves whatever it left. */
  datatype Report = Accepted | Refused(landed: bool)
  datatype Transfer = Sent | Broken(leaves: Option<Frame>)
  datatype Link = Link(report: Report, transfer: Transfer)

  datatype Hardware = Confirmed | NotApplied | Uncertain

  datatype Outcome = Outcome(hardware: Hardware, frames: nat, deduplicated: bool, brightnessSent: bool)

  const MIN_FRAME_DELAY: int := 80 * NANOS_PER_MILLI

  /** The renderer raises every delay to the transport's floor. */
  type Delay = d: int | MIN_FRAME_DELAY <= d witness MIN_FRAME_DELAY

  datatype AnimationFrame = AnimationFrame(bytes: Frame, delay: Delay)

  datatype Animation = Animation(frames: seq<AnimationFrame>, cursor: nat, due: Instant)

  datatype Committed = Committed(preset: Preset, frame: Frame)

  datatype Executor = Executor(
    connected: bool, active: Option<Preset>, committed: Option<Committed>, brightness: Option<byte>,
    faulted: bool, dropped: nat, animation: Option<Animation>)

  /** What the renderer answers at one moment: one picture for a drawn preset, the frames of the file
      for an image preset, `None` where it refuses. */
  datatype Renderer = Renderer(picture: Option<Frame>, pictures: Option<seq<AnimationFrame>>)

  const DROPPED_MAX: nat := 0xFFFF_FFFF_FFFF_FFFF

  function Absent(): Outcome {
    Outcome(NotApplied, 0, false, false)
  }

  // ---------------------------------------------------------------- one picture

  datatype Shown = Shown(executor: Executor, panel: Panel, outcome: Outcome)

  /** Brightness, comparison, transfer. */
  function SendBytes(ex: Executor, p: Panel, preset: Preset, frame: Frame, link: Link): Shown {
    if !ex.connected then Shown(ex, p, Absent()) else
    var reports := ex.brightness != Some(preset.brightness);
    if reports && link.report.Refused? then
      Shown(ex.(committed := None),
            if link.report.landed then p.(level := Some(preset.brightness)) else p,
            Outcome(Uncertain, 0, false, false))
    else
      var lit := ex.(brightness := Some(preset.brightness));
      var dimmed := if reports then p.(level := Some(preset.brightness)) else p;
      if ex.committed.Some? && ex.committed.value.frame == frame then
        Shown(lit, dimmed, Outcome(Confirmed, 0, true, reports))
      else
        match link.transfer
        case Sent =>
          Shown(lit.(committed := Some(Committed(preset, frame))), dimmed.(glass := Some(frame)),
                Outcome(Confirmed, 1, false, reports))
        case Broken(left) =>
          Shown(lit.(committed := None), dimmed.(glass := left), Outcome(Uncertain, 0, false, reports))
  }

  /** The record is true of the panel. */
  ghost predicate Sound(ex: Executor, p: Panel) {
    && (ex.committed.Some? ==> p.glass == Some(ex.committed.value.frame))
    && (ex.brightness.Some? ==> p.level == ex.brightness)
  }

  /** An executor that keeps no record: both transfers, every time, stopping at the first failure. */
  function AlwaysSend(p: Panel, preset: Preset, frame: Frame, link: Link): Panel {
    if link.report.Refused? then
      if link.report.landed then p.(level := Some(preset.brightness)) else p
    else
      var dimmed := p.(level := Some(preset.brightness));
      dimmed.(glass := if link.transfer.Sent? then Some(frame) else link.transfer.leaves)
  }

  /** The link as the deduplicating executor met it: a transfer it did not need cannot have failed. */
  function Met(ex: Executor, preset: Preset, frame: Frame, link: Link): Link {
    Link(if ex.brightness != Some(preset.brightness) then link.report else Accepted,
         if ex.committed.Some? && ex.committed.value.frame == frame then Sent else link.transfer)
  }

  /** The brightness record survives a refused report only when the report did not land. */
  predicate ReportHolds(ex: Executor, preset: Preset, link: Link) {
    ex.connected && ex.brightness.Some? && ex.brightness != Some(preset.brightness) && link.report.Refused?
    ==> !link.report.landed
  }

  /** One picture: the panel ends exactly as one that is always sent everything, a confirmed answer
      means it shows this picture at this brightness, and an uncertain one leaves no picture on
      record for a later request to be compared with. */
  lemma SendingIsTransparent(ex: Executor, p: Panel, preset: Preset, frame: Frame, link: Link)
    requires Sound(ex, p) && ex.connected
    ensures var s := SendBytes(ex, p, preset, frame, link);
      && s.panel == AlwaysSend(p, preset, frame, Met(ex, preset, frame, link))
      && (s.outcome.hardware.Confirmed? ==> s.panel == Panel(Some(frame), Some(preset.brightness)))
      && (s.outcome.hardware.Uncertain? ==> s.executor.committed == None)
      && (s.outcome.deduplicated ==> p.glass == Some(frame) && s.panel.glass == p.glass)
      && !s.outcome.hardware.NotApplied?
  {
  }

  /** Exactly when the record stays true: a refused brightness report over a known brightness must
      not have landed. */
  lemma SendingKeepsRecordExactlyWhen(ex: Executor, p: Panel, preset: Preset, frame: Frame, link: Link)
    requires Sound(ex, p)
    ensures var s := SendBytes(ex, p, preset, frame, link);
      Sound(s.executor, s.panel) <==> ReportHolds(ex, preset, link)
  {
  }

  /** What a report that landed and was called a failure costs: the panel is left dim, the record
      says bright, and the request to be bright again is answered without a report. */
  lemma ALandedRefusalIsDeduplicatedAgainst(bright: Preset, dim: Preset, frame: Frame, p: Panel)
    requires bright.brightness != dim.brightness
    requires p == Panel(Some(frame), Some(bright.brightness))
    ensures
      var ex := Executor(true, Some(bright), Some(Committed(bright, frame)), Some(bright.brightness), false, 0, None);
      var refused := SendBytes(ex, p, dim, frame, Link(Refused(true), Sent));
      var again := SendBytes(refused.executor, refused.panel, bright, frame, Link(Accepted, Sent));
      && Sound(ex, p)
      && again.outcome.hardware.Confirmed? && !again.outcome.brightnessSent
      && again.panel.level == Some(dim.brightness)
  {
  }

  // ---------------------------------------------------------------- the executor's events

  predicate IsStreaming(ex: Executor) {
    && ex.connected && !ex.faulted
    && (ex.animation.Some? || (ex.active.Some? && ex.active.value.UsesReadings()))
  }

  function DropFrames(ex: Executor, count: nat): Executor {
    ex.(dropped := Min(ex.dropped + count, Max(ex.dropped, DROPPED_MAX)))
  }

  function Forget(ex: Executor): Executor {
    ex.(committed := None, brightness := None, faulted := false)
  }

  /** The first picture of an image preset, and the clock when there is more than one. */
  function StartImage(
      ex: Executor, p: Panel, preset: Preset, frames: seq<AnimationFrame>, link: Link, now: Instant): Shown
  {
    if !ex.connected || frames == [] then Shown(ex, p, Absent()) else
    var s := SendBytes(ex, p, preset, frames[0].bytes, link);
    if |frames| > 1 then
      s.(executor := s.executor.(animation := Some(Animation(frames, 0, now + frames[0].delay))))
    else s
  }

  /** An Apply. `None` is the renderer's refusal, which clears the fault and the animation and
      touches nothing else. */
  function Apply(ex: Executor, p: Panel, preset: Preset, r: Renderer, link: Link, now: Instant): Option<Shown> {
    var cleared := ex.(faulted := false, animation := None);
    if !ex.connected then
      Some(Shown(cleared.(active := Some(preset)), p, Absent()))
    else if preset.UsesImage() then
      if r.pictures.None? then None else
      var s := StartImage(cleared, p, preset, r.pictures.value, link, now);
      Some(s.(executor := s.executor.(active := Some(preset))))
    else
      if r.picture.None? then None else
      var s := SendBytes(cleared, p, preset, r.picture.value, link);
      Some(s.(executor := s.executor.(active := Some(preset))))
  }

  function TurnedAway(ex: Executor): Executor {
    ex.(faulted := false, animation := None)
  }

  // ---------------------------------------------------------------- an animation's clock

  predicate Plays(a: Animation) {
    a.cursor < |a.frames|
  }

  /** An animation on the clock can be played, and belongs to an active preset. */
  predicate Playable(ex: Executor) {
    ex.animation.Some? ==> Plays(ex.animation.value) && ex.active.Some?
  }

  /** The next frame, round and round, and when the one after it is due. */
  function Turn(a: Animation): (b: Animation)
    requires Plays(a)
    ensures Plays(b) && b.frames == a.frames && a.due + MIN_FRAME_DELAY <= b.due
    ensures b.due == a.due + b.frames[b.cursor].delay
  {
    var next := (a.cursor + 1) % |a.frames|;
    a.(cursor := next, due := a.due + a.frames[next].delay)
  }

  /** Step over every frame due at `now`: where the cursor ends, when the next frame is due, and how
      many frames came due on the way. */
  function Walk(a: Animation, now: Instant): (Animation, nat)
    requires Plays(a)
    decreases if now < a.due then 0 else now - a.due + 1
  {
    if now < a.due then (a, 0) else
    var (rest, count) := Walk(Turn(a), now);
    (rest, count + 1)
  }

  /** Where a walk ends: still before the next frame, and no later than one delay past the moment. */
  lemma {:induction false} WalkBrackets(a: Animation, now: Instant)
    requires Plays(a)
    ensures var (b, count) := Walk(a, now);
      && Plays(b) && b.frames == a.frames
      && now < b.due
      && (count == 0 <==> now < a.due)
      && (count > 0 ==> b.due - b.frames[b.cursor].delay <= now)
    decreases if now < a.due then 0 else now - a.due + 1
  {
    if now >= a.due {
      WalkBrackets(Turn(a), now);
    }
  }

  /** The cursor moves one frame for each that came due, round and round. */
  lemma {:induction false} WalkTurnsTheCursor(a: Animation, now: Instant)
    requires Plays(a)
    ensures Walk(a, now).0.cursor == (a.cursor + Walk(a, now).1) % |a.frames|
    decreases if now < a.due then 0 else now - a.due + 1
  {
    if now < a.due {
      Turning(a.cursor, 0, |a.frames|);
    } else {
      WalkTurnsTheCursor(Turn(a), now);
      Turning(a.cursor, Walk(Turn(a), now).1, |a.frames|);
    }
  }

  lemma Turning(cursor: nat, count: nat, n: nat)
    requires cursor < n
    ensures cursor % n == cursor
    ensures ((cursor + 1) % n + count) % n == (cursor + (count + 1)) % n
  {
    RemainderIsUnique(cursor / n, cursor % n, 0, cursor, n);
    ModuloStep(cursor + 1, count, n);
    assert cursor + 1 + count == cursor + (count + 1);
  }

  lemma ModuloStep(x: nat, y: nat, n: nat)
    requires n > 0
    ensures (x % n + y) % n == (x + y) % n
  {
    var a, b := x % n + y, x + y;
    assert a == (a / n) * n + a % n;
    assert b == (b / n) * n + b % n;
    assert x == (x / n) * n + x % n;
    assert (x / n + a / n) * n == (x / n) * n + (a / n) * n;
    RemainderIsUnique(x / n + a / n, a % n, b / n, b % n, n);
  }

  lemma {:induction false} AtLeastOnce(k: nat, n: nat)
    requires k >= 1
    ensures k * n >= n
  {
    if k > 1 {
      AtLeastOnce(k - 1, n);
      assert k * n == (k - 1) * n + n;
    }
  }

  lemma RemainderIsUnique(q: int, r: int, p: int, s: int, n: nat)
    requires q * n + r == p * n + s && 0 <= r < n && 0 <= s < n
    ensures r == s
  {
    assert (q - p) * n == q * n - p * n;
    assert (p - q) * n == p * n - q * n;
    if q < p {
      AtLeastOnce(p - q, n);
    }
    if q > p {
      AtLeastOnce(q - p, n);
    }
  }

  /** The schedule does not matter: looking at the clock at `t1` on the way to `t2` leaves the same
      cursor and the same due time as looking only at `t2`, and the same frames came due. */
  lemma {:induction false} ScheduleIndependence(a: Animation, t1: Instant, t2: Instant)
    requires Plays(a) && t1 <= t2
    ensures var (mid, first) := Walk(a, t1);
      && Plays(mid)
      && Walk(mid, t2).0 == Walk(a, t2).0
      && first + Walk(mid, t2).1 == Walk(a, t2).1
    decreases if t1 < a.due then 0 else t1 - a.due + 1
  {
    if t1 >= a.due {
      ScheduleIndependence(Turn(a), t1, t2);
    }
  }

  /** Put the due frame on the glass, if one is due; answers when the next one is. */
  function Advance(ex: Executor, p: Panel, link: Link, now: Instant): (Executor, Panel, Option<Instant>)
    requires Playable(ex)
  {
    if !IsStreaming(ex) || ex.animation.None? then (ex, p, None)
    else if now < ex.animation.value.due then (ex, p, Some(ex.animation.value.due))
    else
      var (walked, count) := Walk(ex.animation.value, now);
      WalkBrackets(ex.animation.value, now);
      var moved := DropFrames(ex.(animation := Some(walked)), count - 1);
      var s := SendBytes(moved, p, ex.active.value, walked.frames[walked.cursor].bytes, link);
      if s.outcome.hardware.Uncertain? then (s.executor.(faulted := true), s.panel, None)
      else (s.executor, s.panel, Some(walked.due))
  }

  /** Redraw the active preset against a fresh sample. */
  function Refresh(ex: Executor, p: Panel, r: Renderer, link: Link): (Executor, Panel, Option<Outcome>) {
    if !IsStreaming(ex) || ex.animation.Some? then (ex, p, None)
    else if r.picture.None? then (ex.(faulted := true), p, None)
    else
      var s := SendBytes(ex, p, ex.active.value, r.picture.value, link);
      (if s.outcome.hardware.Uncertain? then s.executor.(faulted := true) else s.executor,
       s.panel, Some(s.outcome))
  }

  // ---------------------------------------------------------------- runs

  datatype Event =
    | Applied(preset: Preset, renderer: Renderer, link: Link, now: Instant)
    | Refreshed(renderer: Renderer, link: Link)
    | Advanced(link: Link, now: Instant)
    | Dropped
    | Reconnected(panel: Panel)

  const ABSENT: Executor := Executor(false, None, None, None, false, 0, None)

  datatype Pair = Pair(executor: Executor, panel: Panel)

  /** An executor over its panel, in any state its methods can leave it in. */
  type System = s: Pair | Playable(s.executor) witness Pair(ABSENT, Panel(None, None))

  function Step(s: System, e: Event): System {
    match e
    case Applied(preset, r, link, now) =>
      var done := Apply(s.executor, s.panel, preset, r, link, now);
      if done.None? then Pair(TurnedAway(s.executor), s.panel)
      else Pair(done.value.executor, done.value.panel)
    case Refreshed(r, link) =>
      var (ex, p, _) := Refresh(s.executor, s.panel, r, link);
      Pair(ex, p)
    case Advanced(link, now) =>
      if s.executor.animation.Some? then WalkBrackets(s.executor.animation.value, now);
        var (ex, p, _) := Advance(s.executor, s.panel, link, now);
        Pair(ex, p)
      else s
    case Dropped => Pair(DropFrames(s.executor, 1), s.panel)
    case Reconnected(panel) => Pair(Forget(s.executor), panel)
  }

  lemma AdvancingIsAStep(s: System, link: Link, now: Instant)
    ensures var (ex, p, _) := Advance(s.executor, s.panel, link, now);
      Playable(ex) && Step(s, Advanced(link, now)) == Pair(ex, p)
  {
    if s.executor.animation.Some? {
      WalkBrackets(s.executor.animation.value, now);
    }
  }

  /** The picture this event offers to the panel, with the link it meets. */
  datatype Offer = Offer(preset: Preset, frame: Frame, link: Link)

  function Offered(s: System, e: Event): Option<Offer> {
    var ex := s.executor;
    match e
    case Applied(preset, r, link, _) =>
      if !ex.connected then None
      else if preset.UsesImage() then
        if r.pictures.None? || r.pictures.value == [] then None
        else Some(Offer(preset, r.pictures.value[0].bytes, link))
      else if r.picture.None? then None
      else Some(Offer(preset, r.picture.value, link))
    case Refreshed(r, link) =>
      if !IsStreaming(ex) || ex.animation.Some? || r.picture.None? then None
      else Some(Offer(ex.active.value, r.picture.value, link))
    case Advanced(link, now) =>
      if !IsStreaming(ex) || ex.animation.None? || now < ex.animation.value.due then None
      else
        WalkBrackets(ex.animation.value, now);
        var walked := Walk(ex.animation.value, now).0;
        Some(Offer(ex.active.value, walked.frames[walked.cursor].bytes, link))
    case _ => None
  }

  /** The same event on an executor that keeps no record and sends everything it is offered. */
  function ReferenceStep(s: System, e: Event, reference: Panel): Panel {
    match e
    case Reconnected(panel) => panel
    case _ =>
      var o := Offered(s, e);
      if o.None? then reference
      else AlwaysSend(reference, o.value.preset, o.value.frame,
                      Met(s.executor, o.value.preset, o.value.frame, o.value.link))
  }

  /** No refused brightness report of this event landed over a brightness on record. */
  predicate ReportsHold(s: System, e: Event) {
    var o := Offered(s, e);
    o.Some? ==> ReportHolds(s.executor, o.value.preset, o.value.link)
  }

  /** One offered picture, on any executor with the same record and the same link. */
  lemma OfferIsTransparent(ex: Executor, p: Panel, preset: Preset, frame: Frame, link: Link, like: Executor)
    requires ex.connected && like.connected && Sound(ex, p) && ReportHolds(ex, preset, link)
    requires like.committed == ex.committed && like.brightness == ex.brightness
    ensures var s := SendBytes(like, p, preset, frame, link);
      Sound(s.executor, s.panel) && s.panel == AlwaysSend(p, preset, frame, Met(ex, preset, frame, link))
  {
    SendingIsTransparent(like, p, preset, frame, link);
    SendingKeepsRecordExactlyWhen(like, p, preset, frame, link);
  }

  /** The record stays true, and the panel ends as the reference leaves it. */
  ghost predicate Transparent(s: System, e: Event) {
    var t := Step(s, e);
    && Sound(t.executor, t.panel)
    && t.panel == ReferenceStep(s, e, s.panel)
  }

  lemma ApplyIsTransparent(s: System, e: Event)
    requires e.Applied?
    requires Sound(s.executor, s.panel) && ReportsHold(s, e)
    ensures Transparent(s, e)
  {
    var cleared := s.executor.(faulted := false, animation := None);
    var o := Offered(s, e);
    if o.Some? {
      OfferIsTransparent(s.executor, s.panel, e.preset, o.value.frame, e.link, cleared);
    }
  }

  lemma RefreshIsTransparent(s: System, e: Event)
    requires e.Refreshed?
    requires Sound(s.executor, s.panel) && ReportsHold(s, e)
    ensures Transparent(s, e)
  {
    var ex := s.executor;
    if Offered(s, e).Some? {
      OfferIsTransparent(ex, s.panel, ex.active.value, e.renderer.picture.value, e.link, ex);
    }
  }

  lemma AdvanceIsTransparent(s: System, e: Event)
    requires e.Advanced?
    requires Sound(s.executor, s.panel) && ReportsHold(s, e)
    ensures Transparent(s, e)
  {
    var ex := s.executor;
    if Offered(s, e).Some? {
      var (walked, count) := Walk(ex.animation.value, e.now);
      WalkBrackets(ex.animation.value, e.now);
      var moved := DropFrames(ex.(animation := Some(walked)), count - 1);
      OfferIsTransparent(ex, s.panel, ex.active.value, walked.frames[walked.cursor].bytes, e.link, moved);
    }
  }

  /** One event, whatever fails in it. */
  lemma StepIsTransparent(s: System, e: Event)
    requires Sound(s.executor, s.panel) && ReportsHold(s, e)
    ensures Transparent(s, e)
  {
    match e
    case Applied(_, _, _, _) => ApplyIsTransparent(s, e);
    case Refreshed(_, _) => RefreshIsTransparent(s, e);
    case Advanced(_, _) => AdvanceIsTransparent(s, e);
    case Dropped =>
    case Reconnected(_) =>
  }

  /** A run, beside the panel the reference drives. */
  datatype Both = Both(system: System, reference: Panel)

  predicate ReportsHoldThrough(s: System, events: seq<Event>)
    decreases |events|
  {
    events != [] ==>
      ReportsHold(s, events[0]) && ReportsHoldThrough(Step(s, events[0]), events[1..])
  }

  function RunBoth(b: Both, events: seq<Event>): Both
    requires ReportsHoldThrough(b.system, events)
    decreases |events|
  {
    if events == [] then b else
    RunBoth(Both(Step(b.system, events[0]), ReferenceStep(b.system, events[0], b.reference)), events[1..])
  }

  /** Over any run of applies, redraws, animation ticks and reconnections, under any failing
      transfers, deduplication is invisible: the panel shows what the reference panel shows. */
  lemma {:induction false} DeduplicationIsInvisible(s: System, events: seq<Event>)
    requires Sound(s.executor, s.panel)
    requires ReportsHoldThrough(s, events)
    ensures var b := RunBoth(Both(s, s.panel), events);
      b.system.panel == b.reference && Sound(b.system.executor, b.system.panel)
    decreases |events|
  {
    if events != [] {
      StepIsTransparent(s, events[0]);
      DeduplicationIsInvisible(Step(s, events[0]), events[1..]);
    }
  }

  /** The record is true of the panel after every event of the run. */
  ghost predicate SoundThrough(s: System, events: seq<Event>)
    decreases |events|
  {
    events != [] ==>
      var next := Step(s, events[0]);
      Sound(next.executor, next.panel) && SoundThrough(next, events[1..])
  }

  lemma StepKeepsRecordExactlyWhen(s: System, e: Event)
    requires Sound(s.executor, s.panel)
    ensures Sound(Step(s, e).executor, Step(s, e).panel) <==> ReportsHold(s, e)
  {
    var o := Offered(s, e);
    if o.Some? {
      var ex := s.executor;
      match e
      case Applied(preset, _, link, _) =>
        SendingKeepsRecordExactlyWhen(ex.(faulted := false, animation := None), s.panel, preset, o.value.frame, link);
      case Refreshed(_, link) =>
        SendingKeepsRecordExactlyWhen(ex, s.panel, o.value.preset, o.value.frame, link);
      case Advanced(link, now) =>
        var (walked, count) := Walk(ex.animation.value, now);
        WalkBrackets(ex.animation.value, now);
        var moved := DropFrames(ex.(animation := Some(walked)), count - 1);
        SendingKeepsRecordExactlyWhen(moved, s.panel, o.value.preset, o.value.frame, link);
      case _ =>
    }
  }

  /** The hypothesis of the run is exact: the record is true after every event if and only if no refused
      brightness report landed over a brightness on record. */
  lemma {:induction false} RecordIsTrueThroughExactlyWhen(s: System, events: seq<Event>)
    requires Sound(s.executor, s.panel)
    ensures SoundThrough(s, events) <==> ReportsHoldThrough(s, events)
    decreases |events|
  {
    if events != [] {
      StepKeepsRecordExactlyWhen(s, events[0]);
      if ReportsHold(s, events[0]) {
        RecordIsTrueThroughExactlyWhen(Step(s, events[0]), events[1..]);
      }
    }
  }

  /** A stream that faulted stays stopped, and sends nothing, until an Apply or a reconnection. */
  lemma AFaultStopsTheStream(s: System, e: Event)
    requires s.executor.faulted
    requires e.Refreshed? || e.Advanced? || e.Dropped?
    ensures Step(s, e).panel == s.panel && Step(s, e).executor.faulted && Offered(s, e).None?
  {
  }

  /** The picture this event offers ends in a transfer that may or may not have landed. */
  predicate EndsUncertain(s: System, e: Event) {
    var o := Offered(s, e);
    && o.Some?
    && SendBytes(s.executor, s.panel, o.value.preset, o.value.frame, o.value.link).outcome.hardware.Uncertain?
  }

  /** A failed transfer stops the stream if and only if it was not an Apply's own: an Apply clears the
      fault and leaves it cleared, while a redraw or an animation tick sets it. */
  lemma AFailedTransferStopsTheStreamExactlyWhen(s: System, e: Event)
    requires EndsUncertain(s, e)
    ensures Step(s, e).executor.faulted <==> !e.Applied?
  {
    if e.Advanced? {
      WalkBrackets(s.executor.animation.value, e.now);
    }
  }

  /** What that leaves running: after an Apply whose transfer failed, the stream goes on exactly when the
      preset reads telemetry or an animation was installed. */
  lemma AFailedApplyStreamsExactlyWhen(s: System, e: Event)
    requires e.Applied? && EndsUncertain(s, e)
    ensures IsStreaming(Step(s, e).executor) <==>
      e.preset.UsesReadings() || (e.preset.UsesImage() && |e.renderer.pictures.value| > 1)
  {
  }

  /** The concrete case: a readings preset is applied over a broken transfer, and the next redraw puts
      another picture on the endpoint that has just refused one. */
  lemma ARefusedApplyIsRetriedByTheNextRedraw(s: System, preset: Preset, frame: Frame, left: Option<Frame>, now: Instant)
    requires s.executor == ABSENT.(connected := true) && preset.UsesReadings()
    ensures var renderer := Renderer(Some(frame), None);
      var broken := Link(Accepted, Broken(left));
      var applied := Step(s, Applied(preset, renderer, broken, now));
      && EndsUncertain(s, Applied(preset, renderer, broken, now))
      && !applied.executor.faulted && IsStreaming(applied.executor)
      && Offered(applied, Refreshed(renderer, broken)) == Some(Offer(preset, frame, broken))
      && Step(applied, Refreshed(renderer, broken)).executor.faulted
  {
  }

  // ---------------------------------------------------------------- frames are conserved

  /** One look at the clock, and the link the frame it may send will meet. */
  datatype Wakeup = Wakeup(now: Instant, link: Link)

  /** What a run of wake-ups did: how many frames came due, and how many were offered to the panel. */
  datatype Tally = Tally(system: System, due: nat, offered: nat)

  function Woken(t: Tally, w: Wakeup): Tally {
    var e := Advanced(w.link, w.now);
    if Offered(t.system, e).None? then Tally(Step(t.system, e), t.due, t.offered)
    else Tally(Step(t.system, e), t.due + Walk(t.system.executor.animation.value, w.now).1, t.offered + 1)
  }

  function Wake(t: Tally, wakeups: seq<Wakeup>): Tally
    decreases |wakeups|
  {
    if wakeups == [] then t else Wake(Woken(t, wakeups[0]), wakeups[1..])
  }

  /** However irregular the wake-ups and however the transfers end, every frame that came due was
      offered to the panel or counted as dropped; the counter stops at its width and nowhere before. */
  lemma {:induction false} FramesAreConserved(t: Tally, wakeups: seq<Wakeup>)
    requires t.system.executor.dropped <= DROPPED_MAX
    ensures var w := Wake(t, wakeups);
      && t.offered <= w.offered
      && w.offered - t.offered <= w.due - t.due
      && w.system.executor.dropped
           == Min(t.system.executor.dropped + (w.due - t.due) - (w.offered - t.offered), DROPPED_MAX)
    decreases |wakeups|
  {
    if wakeups != [] {
      OneWakeupConserves(t, wakeups[0]);
      FramesAreConserved(Woken(t, wakeups[0]), wakeups[1..]);
    }
  }

  lemma OneWakeupConserves(t: Tally, w: Wakeup)
    requires t.system.executor.dropped <= DROPPED_MAX
    ensures var u := Woken(t, w);
      && t.offered <= u.offered
      && u.offered - t.offered <= u.due - t.due
      && u.system.executor.dropped
           == Min(t.system.executor.dropped + (u.due - t.due) - (u.offered - t.offered), DROPPED_MAX)
  {
    if Offered(t.system, Advanced(w.link, w.now)).Some? {
      WalkBrackets(t.system.executor.animation.value, w.now);
    }
  }

  // ---------------------------------------------------------------- when each picture is on the glass

  /** When the k-th picture of an animation put up at `t0` takes the glass, round and round. */
  function Turns(frames: seq<AnimationFrame>, t0: Instant, k: nat): Instant
    requires frames != []
  {
    if k == 0 then t0 else Turns(frames, t0, k - 1) + frames[(k - 1) % |frames|].delay
  }

  /** The j-th picture is up, until the next one is due. */
  function Showing(frames: seq<AnimationFrame>, t0: Instant, j: nat): Animation
    requires frames != []
  {
    Animation(frames, j % |frames|, Turns(frames, t0, j + 1))
  }

  lemma TurningShowsTheNext(frames: seq<AnimationFrame>, t0: Instant, j: nat)
    requires frames != []
    ensures Plays(Showing(frames, t0, j)) && Turn(Showing(frames, t0, j)) == Showing(frames, t0, j + 1)
  {
    ModuloStep(j, 1, |frames|);
  }

  lemma {:induction false} TurnsAreInOrder(frames: seq<AnimationFrame>, t0: Instant, j: nat, k: nat)
    requires frames != [] && j <= k
    ensures Turns(frames, t0, j) <= Turns(frames, t0, k)
    decreases k
  {
    if j < k {
      TurnsAreInOrder(frames, t0, j, k - 1);
    }
  }

  /** However late the clock is looked at, the picture up is the one whose time it is. */
  lemma {:induction false} WalkingFindsThePicture(frames: seq<AnimationFrame>, t0: Instant, j: nat, k: nat, now: Instant)
    requires frames != [] && j <= k
    requires j == k || Turns(frames, t0, k) <= now
    requires now < Turns(frames, t0, k + 1)
    ensures Plays(Showing(frames, t0, j)) && Walk(Showing(frames, t0, j), now) == (Showing(frames, t0, k), k - j)
    decreases k - j
  {
    TurningShowsTheNext(frames, t0, j);
    if j < k {
      TurnsAreInOrder(frames, t0, j + 1, k);
      WalkingFindsThePicture(frames, t0, j + 1, k, now);
    }
  }

  /** The panel is playing this preset's pictures, put up at `t0`, and the j-th is up. */
  predicate Playing(s: System, preset: Preset, frames: seq<AnimationFrame>, t0: Instant, j: nat)
    requires frames != []
  {
    && s.executor.connected && !s.executor.faulted && s.executor.active == Some(preset)
    && s.executor.animation == Some(Showing(frames, t0, j))
  }

  /** An image applied at `t0` puts its first picture on offer at once and keeps it up for its own delay: the
      clock that is installed has the second one due then. */
  lemma AnAppliedImagePlaysFromItsFirstPicture(
      s: System, preset: Preset, renderer: Renderer, link: Link, t0: Instant)
    requires s.executor.connected && preset.UsesImage()
    requires renderer.pictures.Some? && |renderer.pictures.value| > 1
    ensures var frames := renderer.pictures.value;
      && Offered(s, Applied(preset, renderer, link, t0)) == Some(Offer(preset, frames[0].bytes, link))
      && Playing(Step(s, Applied(preset, renderer, link, t0)), preset, frames, t0, 0)
      && Turns(frames, t0, 1) == t0 + frames[0].delay
  {
    var frames := renderer.pictures.value;
    RemainderIsUnique(0 / |frames|, 0 % |frames|, 0, 0, |frames|);
    assert Turns(frames, t0, 0) == t0;
  }

  /** Looked at before the next picture is due, nothing is offered, nothing changes and the answer is when it
      will be. */
  lemma APictureKeepsItsTime(
      s: System, preset: Preset, frames: seq<AnimationFrame>, t0: Instant, j: nat, link: Link, now: Instant)
    requires frames != [] && Playing(s, preset, frames, t0, j) && now < Turns(frames, t0, j + 1)
    ensures Offered(s, Advanced(link, now)) == None && Step(s, Advanced(link, now)) == s
    ensures Advance(s.executor, s.panel, link, now).2 == Some(Turns(frames, t0, j + 1))
  {
  }

  /** Looked at while the k-th picture's time lasts, that picture is offered, and as long as the link holds it is
      the one that is up and the answer is when the next is due. */
  lemma APictureComesAtItsTime(
      s: System, preset: Preset, frames: seq<AnimationFrame>, t0: Instant, j: nat, k: nat, link: Link, now: Instant)
    requires frames != [] && Playing(s, preset, frames, t0, j) && j < k
    requires Turns(frames, t0, k) <= now < Turns(frames, t0, k + 1)
    ensures Offered(s, Advanced(link, now)) == Some(Offer(preset, frames[k % |frames|].bytes, link))
    ensures link == Link(Accepted, Sent) ==>
      && Playing(Step(s, Advanced(link, now)), preset, frames, t0, k)
      && (Sound(s.executor, s.panel) ==>
            Step(s, Advanced(link, now)).panel == Panel(Some(frames[k % |frames|].bytes), Some(preset.brightness)))
    ensures link == Link(Accepted, Sent) ==>
      Advance(s.executor, s.panel, link, now).2 == Some(Turns(frames, t0, k + 1))
  {
    TurnsAreInOrder(frames, t0, j + 1, k);
    WalkingFindsThePicture(frames, t0, j, k, now);
    AdvancingIsAStep(s, link, now);
  }

  /** So the first change after an image is applied comes exactly when the first picture's delay is over. */
  lemma TheFirstChangeComesExactlyWhen(
      s: System, preset: Preset, renderer: Renderer, link: Link, t0: Instant, later: Link, now: Instant)
    requires s.executor.connected && preset.UsesImage()
    requires renderer.pictures.Some? && |renderer.pictures.value| > 1
    ensures var frames := renderer.pictures.value;
      var applied := Step(s, Applied(preset, renderer, link, t0));
      var due, after := t0 + frames[0].delay, t0 + frames[0].delay + frames[1].delay;
      && (Offered(applied, Advanced(later, now)).Some? <==> due <= now)
      && (now < due ==> Advance(applied.executor, applied.panel, later, now).2 == Some(due))
      && (due <= now < after ==>
            Offered(applied, Advanced(later, now)) == Some(Offer(preset, frames[1].bytes, later)))
  {
    var frames := renderer.pictures.value;
    var applied := Step(s, Applied(preset, renderer, link, t0));
    AnAppliedImagePlaysFromItsFirstPicture(s, preset, renderer, link, t0);
    RemainderIsUnique(1 / |frames|, 1 % |frames|, 0, 1, |frames|);
    assert Turns(frames, t0, 2) == Turns(frames, t0, 1) + frames[1].delay;
    if now < t0 + frames[0].delay {
      APictureKeepsItsTime(applied, preset, frames, t0, 0, later, now);
    } else if now < t0 + frames[0].delay + frames[1].delay {
      APictureComesAtItsTime(applied, preset, frames, t0, 0, 1, later, now);
    }
  }

  // ---------------------------------------------------------------- what an event leaves set up

  /** A picture that is up, at the brightness it is up at, costs nothing whatever the link would do. */
  lemma ARepeatSendsNothing(ex: Executor, p: Panel, preset: Preset, frame: Frame, link: Link)
    requires ex.connected && ex.brightness == Some(preset.brightness)
    requires ex.committed.Some? && ex.committed.value.frame == frame
    ensures var s := SendBytes(ex, p, preset, frame, link);
      s.executor == ex && s.panel == p && s.outcome == Outcome(Confirmed, 0, true, false)
  {
  }

  /** What the answer to one picture counts: a brightness report exactly if one was needed and accepted, a frame
      exactly if one was needed and sent. */
  lemma TheAnswerCountsWhatWasSent(ex: Executor, p: Panel, preset: Preset, frame: Frame, link: Link)
    requires ex.connected
    ensures var o := SendBytes(ex, p, preset, frame, link).outcome;
      var needed := ex.brightness != Some(preset.brightness);
      var held := ex.committed.Some? && ex.committed.value.frame == frame;
      var lit := !needed || link.report.Accepted?;
      && (o.brightnessSent <==> needed && link.report.Accepted?)
      && o.frames == (if lit && !held && link.transfer.Sent? then 1 else 0)
      && (o.deduplicated <==> lit && held)
      && (o.hardware.Confirmed? <==> lit && (held || link.transfer.Sent?))
  {
  }

  /** An Apply the renderer can draw becomes what the panel is for, with its own animation or none and no fault;
      one it cannot draw clears the fault and the animation and leaves everything else. */
  lemma AnApplyTakesOver(s: System, preset: Preset, renderer: Renderer, link: Link, now: Instant)
    ensures var t := Step(s, Applied(preset, renderer, link, now)).executor;
      var refused := s.executor.connected
                     && (if preset.UsesImage() then renderer.pictures.None? else renderer.picture.None?);
      && !t.faulted
      && t.active == (if refused then s.executor.active else Some(preset))
      && (t.animation.Some? <==> !refused && s.executor.connected && preset.UsesImage() && |renderer.pictures.value| > 1)
      && (refused ==> t.committed == s.executor.committed && t.brightness == s.executor.brightness)
      && (refused || !s.executor.connected ==>
            Step(s, Applied(preset, renderer, link, now)).panel == s.panel
            && Offered(s, Applied(preset, renderer, link, now)) == None)
  {
  }

  /** A preset that stopped rendering stops the stream and sends nothing. */
  lemma ARefusingRendererStopsTheStream(s: System, renderer: Renderer, link: Link)
    requires IsStreaming(s.executor) && s.executor.animation.None? && renderer.picture.None?
    ensures Step(s, Refreshed(renderer, link)) == Pair(s.executor.(faulted := true), s.panel)
  {
  }

  /** A redraw happens exactly for a connected, unfaulted preset that reads telemetry and has no animation. */
  lemma RedrawnExactlyWhen(s: System, renderer: Renderer, link: Link)
    requires renderer.picture.Some?
    ensures var ex := s.executor;
      var redrawn := ex.connected && !ex.faulted && ex.active.Some? && ex.active.value.UsesReadings()
                     && ex.animation.None?;
      Offered(s, Refreshed(renderer, link)) ==
        if redrawn then Some(Offer(ex.active.value, renderer.picture.value, link)) else None
  {
  }

  /** A reconnection rearms the stream and forgets what the panel held: the preset and the animation go on, the
      fault is gone, and the next picture is sent with its brightness whatever was sent before. */
  lemma AReconnectionRearms(s: System, panel: Panel, preset: Preset, frame: Frame)
    requires s.executor.connected
    ensures var t := Step(s, Reconnected(panel));
      && t.panel == panel && !t.executor.faulted
      && t.executor.active == s.executor.active && t.executor.animation == s.executor.animation
      && SendBytes(t.executor, panel, preset, frame, Link(Accepted, Sent)).outcome == Outcome(Confirmed, 1, false, true)
  {
  }
}
