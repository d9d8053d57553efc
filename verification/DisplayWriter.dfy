/**
 The panel executor as the object it is: it owns the link, keeps the record, walks the animation.
 Each method is tied to the function in `Display` that says what it does.
 Models crates/daemon/src/display.rs.
 */
module DisplayWriter {
  import opened Basics
  import opened Display

  /** The transport to one panel. `next` is how the coming transfers end. */
  class LcdLink {
    var panel: Panel
    var next: Link

    constructor (panel: Panel, next: Link)
      ensures this.panel == panel && this.next == next
    {
      this.panel, this.next := panel, next;
    }

    method SetDisplay(brightness: byte) returns (ok: bool)
      modifies this`panel
      ensures ok == next.report.Accepted?
      ensures panel == if ok || next.report.landed then old(panel).(level := Some(brightness)) else old(panel)
    {
      if next.report.Accepted? || next.report.landed {
        panel := panel.(level := Some(brightness));
      }
      return next.report.Accepted?;
    }

    method SendFrame(frame: Frame) returns (ok: bool)
      modifies this`panel
      ensures ok == next.transfer.Sent?
      ensures panel == old(panel).(glass := if ok then Some(frame) else next.transfer.leaves)
    {
      match next.transfer {
        case Sent => panel := panel.(glass := Some(frame)); return true;
        case Broken(leaves) => panel := panel.(glass := leaves); return false;
      }
    }
  }

  class DisplayExecutor {
    const link: LcdLink?
    var active: Option<Preset>
    var committed: Option<Committed>
    var brightness: Option<byte>
    var faulted: bool
    var dropped: nat
    var animation: Option<Animation>

    /** The executor as a value. */
    function Value(): Executor
      reads this
    {
      Executor(link != null, active, committed, brightness, faulted, dropped, animation)
    }

    function Glass(): Panel
      reads link
    {
      if link == null then Panel(None, None) else link.panel
    }

    function Meets(): Link
      reads link
    {
      if link == null then Link(Accepted, Sent) else link.next
    }

    constructor (link: LcdLink?)
      ensures this.link == link
      ensures Value() == Executor(link != null, None, None, None, false, 0, None)
    {
      this.link := link;
      active, committed, brightness := None, None, None;
      faulted, dropped, animation := false, 0, None;
    }

    predicate IsStreaming()
      reads this
    {
      Display.IsStreaming(Value())
    }

    method DropFrame()
      modifies this`dropped
      ensures Value() == DropFrames(old(Value()), 1)
    {
      if dropped < DROPPED_MAX {
        dropped := dropped + 1;
      }
    }

    method Forget()
      modifies this`committed, this`brightness, this`faulted
      ensures Value() == Display.Forget(old(Value()))
    {
      committed := None;
      brightness := None;
      faulted := false;
    }

    /** The brightness, the comparison against what the panel holds, and the transfer. */
    method SendBytes(preset: Preset, frame: Frame) returns (outcome: Outcome)
      modifies this`committed, this`brightness, link
      ensures link != null ==> link.next == old(link.next)
      ensures var s := Display.SendBytes(old(Value()), old(Glass()), preset, frame, old(Meets()));
        Value() == s.executor && Glass() == s.panel && outcome == s.outcome
    {
      if link == null {
        return Absent();
      }
      var brightnessSent := false;
      if brightness != Some(preset.brightness) {
        var ok := link.SetDisplay(preset.brightness);
        if !ok {
          outcome := GoUncertain(false);
          return;
        }
        brightness := Some(preset.brightness);
        brightnessSent := true;
      }
      if committed.Some? && committed.value.frame == frame {
        return Outcome(Confirmed, 0, true, brightnessSent);
      }
      var sent := link.SendFrame(frame);
      if sent {
        committed := Some(Committed(preset, frame));
        outcome := Outcome(Confirmed, 1, false, brightnessSent);
      } else {
        outcome := GoUncertain(brightnessSent);
      }
    }

    /** A transfer that may or may not have landed. */
    method GoUncertain(brightnessSent: bool) returns (outcome: Outcome)
      modifies this`committed
      ensures committed == None && outcome == Outcome(Uncertain, 0, false, brightnessSent)
    {
      committed := None;
      outcome := Outcome(Uncertain, 0, false, brightnessSent);
    }

    /** Put the first picture on the glass, and install the clock when there is more than one. */
    method StartImage(preset: Preset, frames: seq<AnimationFrame>, now: Instant) returns (outcome: Outcome)
      modifies this, link
      ensures link != null ==> link.next == old(link.next)
      ensures var s := Display.StartImage(old(Value()), old(Glass()), preset, frames, old(Meets()), now);
        Value() == s.executor && Glass() == s.panel && outcome == s.outcome
    {
      if link == null || frames == [] {
        return Absent();
      }
      var first := frames[0];
      outcome := SendBytes(preset, first.bytes);
      if |frames| > 1 {
        animation := Some(Animation(frames, 0, now + first.delay));
      }
    }

    /** Render and send what the operator asked for. `None` is the renderer's refusal. */
    method Apply(preset: Preset, renderer: Renderer, now: Instant) returns (outcome: Option<Outcome>)
      modifies this, link
      ensures link != null ==> link.next == old(link.next)
      ensures match Display.Apply(old(Value()), old(Glass()), preset, renderer, old(Meets()), now)
        case None => outcome == None && Value() == TurnedAway(old(Value())) && Glass() == old(Glass())
        case Some(s) => outcome == Some(s.outcome) && Value() == s.executor && Glass() == s.panel
    {
      faulted := false;
      animation := None;
      if link == null {
        active := Some(preset);
        return Some(Absent());
      }
      var shown;
      if preset.UsesImage() {
        if renderer.pictures.None? {
          return None;
        }
        shown := StartImage(preset, renderer.pictures.value, now);
      } else {
        if renderer.picture.None? {
          return None;
        }
        shown := SendBytes(preset, renderer.picture.value);
      }
      active := Some(preset);
      return Some(shown);
    }

    /** Move the cursor over every frame due at `now`; counts the frames stepped over. */
    method WalkClock(now: Instant) returns (skipped: nat)
      requires animation.Some? && Plays(animation.value) && animation.value.due <= now
      modifies this`animation
      ensures animation == Some(Walk(old(animation).value, now).0)
      ensures skipped + 1 == Walk(old(animation).value, now).1
    {
      skipped := 0;
      ghost var start := animation.value;
      WalkBrackets(start, now);
      while true
        invariant animation.Some? && Plays(animation.value) && animation.value.due <= now
        invariant animation.value.frames == start.frames
        invariant Walk(start, now).0 == Walk(animation.value, now).0
        invariant Walk(start, now).1 == skipped + Walk(animation.value, now).1
        decreases now - animation.value.due
      {
        ghost var turned := Turn(animation.value);
        var playing := animation.value;
        var cursor := (playing.cursor + 1) % |playing.frames|;
        animation := Some(playing.(cursor := cursor, due := playing.due + playing.frames[cursor].delay));
        assert animation.value == turned;
        if now < animation.value.due {
          break;
        }
        skipped := skipped + 1;
      }
    }

    /** Put the due frame on the glass, if one is due; answers when the next one is. */
    method AdvanceAnimation(now: Instant) returns (due: Option<Instant>)
      requires Playable(Value())
      modifies this, link
      ensures link != null ==> link.next == old(link.next)
      ensures var (ex, p, d) := Display.Advance(old(Value()), old(Glass()), old(Meets()), now);
        Value() == ex && Glass() == p && due == d
    {
      if !IsStreaming() || animation.None? {
        return None;
      }
      if now < animation.value.due {
        return Some(animation.value.due);
      }
      WalkBrackets(animation.value, now);
      var skipped := WalkClock(now);
      var playing := animation.value;
      ghost var before := dropped;
      for k := 0 to skipped
        invariant Value() == DropFrames(old(Value()).(animation := Some(playing)), k)
        invariant Glass() == old(Glass()) && Meets() == old(Meets())
      {
        DropFrame();
      }
      var outcome := SendBytes(active.value, playing.frames[playing.cursor].bytes);
      if outcome.hardware.Uncertain? {
        faulted := true;
        return None;
      }
      return Some(playing.due);
    }

    /** Redraw the active preset against a fresh sample, once per tick. */
    method Refresh(renderer: Renderer) returns (outcome: Option<Outcome>)
      modifies this, link
      ensures link != null ==> link.next == old(link.next)
      ensures var (ex, p, o) := Display.Refresh(old(Value()), old(Glass()), renderer, old(Meets()));
        Value() == ex && Glass() == p && outcome == o
    {
      if !IsStreaming() || animation.Some? {
        return None;
      }
      if renderer.picture.None? {
        faulted := true;
        return None;
      }
      var shown := SendBytes(active.value, renderer.picture.value);
      if shown.hardware.Uncertain? {
        faulted := true;
      }
      return Some(shown);
    }
  }
}
