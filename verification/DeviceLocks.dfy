/**
 Taking ownership of every supported device at startup, as one loop over shared lock state. Models
 crates/daemon/src/startup.rs and the lock of crates/daemon/src/ownership.rs, and ties the loop to the
 interleaved steps of module Ownership.
 */
module DeviceLocks {
  import opened Basics
  import opened Ownership

  /** One supported device, and whether its lock file can be opened at all. */
  datatype Ask = Ask(device: Device, opens: bool)

  /** What a daemon came out of startup with. `held` is the lock state every process shares. */
  datatype Taken = Taken(held: map<Device, Pid>, locks: seq<Device>, conflicts: seq<Device>)

  /** One device: its lock if it is free, a conflict otherwise. Never retried, never forced. */
  function TakeOne(t: Taken, pid: Pid, ask: Ask): Taken {
    if ask.opens && ask.device !in t.held then
      t.(held := t.held[ask.device := pid], locks := t.locks + [ask.device])
    else t.(conflicts := t.conflicts + [ask.device])
  }

  function TakeAll(held: map<Device, Pid>, pid: Pid, asks: seq<Ask>): Taken {
    if asks == [] then Taken(held, [], [])
    else TakeOne(TakeAll(held, pid, asks[..|asks| - 1]), pid, asks[|asks| - 1])
  }

  /** The devices asked for, in order. */
  function Devices(asks: seq<Ask>): (r: seq<Device>)
    ensures |r| == |asks|
    ensures forall k :: 0 <= k < |asks| ==> r[k] == asks[k].device
  {
    if asks == [] then [] else Devices(asks[..|asks| - 1]) + [asks[|asks| - 1].device]
  }

  /** Nobody loses a lock, every device asked for is afterwards locked by somebody unless its file did not
      open, and exactly the new locks are this daemon's. */
  lemma {:induction false} TakingIsFair(held: map<Device, Pid>, pid: Pid, asks: seq<Ask>)
    ensures var t := TakeAll(held, pid, asks);
      && (forall d :: d in held ==> d in t.held && t.held[d] == held[d])
      && (forall d :: d in t.held && d !in held <==> d in t.locks)
      && (forall d :: d in t.locks ==> t.held[d] == pid)
      && (forall k :: 0 <= k < |asks| && asks[k].opens ==> asks[k].device in t.held)
      && |t.locks| + |t.conflicts| == |asks|
  {
    if asks != [] {
      var n := |asks| - 1;
      TakingIsFair(held, pid, asks[..n]);
      assert forall k :: 0 <= k < n ==> asks[..n][k] == asks[k];
    }
  }

  /** Every lock file opens, nobody has any of the locks and no device is asked for twice. */
  predicate Clear(held: map<Device, Pid>, asks: seq<Ask>) {
    && (forall k :: 0 <= k < |asks| ==> asks[k].opens && asks[k].device !in held)
    && (forall i, j :: 0 <= i < j < |asks| ==> asks[i].device != asks[j].device)
  }

  lemma ClearOneMore(held: map<Device, Pid>, front: seq<Ask>, last: Ask)
    ensures Clear(held, front + [last]) <==>
      Clear(held, front) && last.opens && last.device !in held && last.device !in Devices(front)
  {
    var asks, n := front + [last], |front|;
    if Clear(held, asks) {
      assert forall k :: 0 <= k < n ==> front[k] == asks[k];
      assert asks[n] == last;
    }
    if Clear(held, front) && last.opens && last.device !in held && last.device !in Devices(front) {
      forall i, j | 0 <= i < j < n + 1 ensures asks[i].device != asks[j].device {
        if j == n { assert Devices(front)[i] == asks[i].device; }
      }
    }
  }

  /** There is no conflict exactly when the way is clear, and then every lock is this daemon's. */
  lemma {:induction false} ConflictFreeExactlyWhen(held: map<Device, Pid>, pid: Pid, asks: seq<Ask>)
    ensures TakeAll(held, pid, asks).conflicts == [] <==> Clear(held, asks)
    ensures TakeAll(held, pid, asks).conflicts == [] ==> TakeAll(held, pid, asks).locks == Devices(asks)
  {
    if asks != [] {
      var n := |asks| - 1;
      var front, last := asks[..n], asks[n];
      assert asks == front + [last];
      ConflictFreeExactlyWhen(held, pid, front);
      TakingIsFair(held, pid, front);
      ClearOneMore(held, front, last);
    }
  }

  // ---------------------------------------------------------------- the loop is the interleaved steps

  /** The process on its own, one step per answer. */
  function StepAll(w: World, pid: Pid, oks: seq<bool>): World {
    if oks == [] then w else Step(StepAll(w, pid, oks[..|oks| - 1]), Proceed(pid, oks[|oks| - 1]))
  }

  function Opens(asks: seq<Ask>): (r: seq<bool>)
    ensures |r| == |asks|
  {
    if asks == [] then [] else Opens(asks[..|asks| - 1]) + [asks[|asks| - 1].opens]
  }

  /** The world once this daemon's locks and its process are these. */
  function Standing(w: World, pid: Pid, p: Process, todo: seq<Device>, t: Taken): World {
    w.(live := w.live[pid := p.(phase := Owning(todo), conflicted := p.conflicted || t.conflicts != [])],
       locks := t.held)
  }

  lemma OneMoreStep(w: World, pid: Pid, p: Process, t: Taken, ask: Ask, rest: seq<Device>)
    requires pid in w.live && p.kind.Daemon?
    ensures Step(Standing(w, pid, p, [ask.device] + rest, t), Proceed(pid, ask.opens))
         == Standing(w, pid, p, rest, TakeOne(t, pid, ask))
  {
    var v := Standing(w, pid, p, [ask.device] + rest, t);
    var q := v.live[pid];
    assert ([ask.device] + rest)[1..] == rest;
    assert w.live[pid := q][pid := q.(phase := Owning(rest))] == w.live[pid := q.(phase := Owning(rest))];
    assert w.live[pid := q][pid := q.(phase := Owning(rest), conflicted := true)]
        == w.live[pid := q.(phase := Owning(rest), conflicted := true)];
  }

  /** A daemon left alone in its Owning phase ends with the locks and the read-only flag of TakeAll: what
      is proved of every interleaving of the steps is about this loop. */
  lemma {:induction false} TakingIsStepping(w: World, pid: Pid, p: Process, asks: seq<Ask>, rest: seq<Device>)
    requires pid in w.live && w.live[pid] == p && p.kind.Daemon?
    requires p.phase == Owning(Devices(asks) + rest)
    ensures StepAll(w, pid, Opens(asks)) == Standing(w, pid, p, rest, TakeAll(w.locks, pid, asks))
  {
    if asks == [] {
      assert Devices(asks) + rest == rest;
      assert w.live[pid := p] == w.live;
    } else {
      var n := |asks| - 1;
      var front, last := asks[..n], asks[n];
      assert Devices(asks) + rest == Devices(front) + ([last.device] + rest);
      TakingIsStepping(w, pid, p, front, [last.device] + rest);
      OneMoreStep(w, pid, p, TakeAll(w.locks, pid, front), last, rest);
      assert Opens(asks)[..n] == Opens(front);
    }
  }

  // ---------------------------------------------------------------- a free machine is taken

  /** What a daemon does between its launch and its first device lock: the instance lock, the stale socket, the bind,
      the probe. */
  lemma AFreeInstanceIsTaken(w: World, pid: Pid, supported: seq<Device>)
    requires pid !in w.past && w.instance.None?
    ensures var launched := Step(w, Launch(pid, Daemon, supported));
      var v := Step(Step(Step(Step(launched, Proceed(pid, true)), Proceed(pid, true)), Proceed(pid, true)),
                    Proceed(pid, true));
      && pid in v.live && v.live[pid] == Process(Daemon, Owning(supported), supported, false, false)
      && v.instance == Some(pid) && v.socket == Some(pid) && v.locks == w.locks && v.sent == w.sent
  {
    var launched := Step(w, Launch(pid, Daemon, supported));
    assert launched.live[pid] == Process(Daemon, Launched, supported, false, false);
    var locked := Step(launched, Proceed(pid, true));
    assert locked.live[pid].phase == Locked && locked.instance == Some(pid);
    var cleared := Step(locked, Proceed(pid, true));
    assert cleared.live[pid].phase == Cleared && cleared.socket == None;
    var bound := Step(cleared, Proceed(pid, true));
    assert bound.live[pid].phase == Bound && bound.socket == Some(pid);
  }

  /** Once it has been through every device with the way clear and no foreign holder, it serves and holds them all. */
  lemma AClearWayIsServed(w: World, pid: Pid, asks: seq<Ask>)
    requires pid in w.live && w.live[pid] == Process(Daemon, Owning(Devices(asks)), Devices(asks), false, false)
    requires Clear(w.locks, asks)
    ensures var v := Step(StepAll(w, pid, Opens(asks)), Proceed(pid, true));
      && pid in v.live && v.live[pid] == Process(Daemon, Serving, Devices(asks), false, false)
      && v.locks == TakeAll(w.locks, pid, asks).held && v.sent == w.sent
      && forall d :: d in Devices(asks) ==> d in v.locks && v.locks[d] == pid
  {
    var p := w.live[pid];
    assert Devices(asks) + [] == Devices(asks);
    TakingIsStepping(w, pid, p, asks, []);
    ConflictFreeExactlyWhen(w.locks, pid, asks);
    var t := TakeAll(w.locks, pid, asks);
    AllTakenAreHeld(w.locks, pid, asks);
    ServingFollows(Standing(w, pid, p, [], t), pid);
  }

  lemma AllTakenAreHeld(held: map<Device, Pid>, pid: Pid, asks: seq<Ask>)
    requires TakeAll(held, pid, asks).locks == Devices(asks)
    ensures forall d :: d in Devices(asks) ==>
      d in TakeAll(held, pid, asks).held && TakeAll(held, pid, asks).held[d] == pid
  {
    TakingIsFair(held, pid, asks);
  }

  /** After the last device, and with nobody foreign seen, a daemon serves as conflicted as it was. */
  lemma ServingFollows(w: World, pid: Pid)
    requires pid in w.live && w.live[pid].kind.Daemon? && w.live[pid].phase == Owning([])
    ensures var v := Step(w, Proceed(pid, true));
      && pid in v.live && v.live[pid] == w.live[pid].(phase := Serving)
      && v.locks == w.locks && v.sent == w.sent
  {
  }

  /** A permitted command of a daemon that serves without a conflict is sent. */
  lemma APermittedCommandIsSent(w: World, pid: Pid, device: Device, picture: bool)
    requires pid in w.live && w.live[pid].kind.Daemon? && w.live[pid].phase.Serving? && !w.live[pid].conflicted
    requires device in w.live[pid].supported
    ensures Step(w, Command(pid, device, true, picture)).sent == w.sent + [Sent(pid, device, w.live.Keys)]
  {
    var p := w.live[pid];
    assert w.live[pid := p.(showing := p.showing || (device.Kraken? && picture))].Keys == w.live.Keys;
  }

  /** A daemon with a picture up redraws it on a tick, without being asked. */
  lemma ATickSendsWhatIsShown(w: World, pid: Pid)
    requires pid in w.live && w.live[pid].phase.Serving? && w.live[pid].showing
    ensures Step(w, Tick(pid)).sent == w.sent + [Sent(pid, Kraken, w.live.Keys)]
  {
  }

  /** A probe on a device nobody holds gets its lock, may command that device and no other, and gives it back. */
  lemma AProbeHasItsDevice(w: World, pid: Pid, device: Device, supported: seq<Device>, other: Device, writable: bool)
    requires pid !in w.past && device !in w.locks
    ensures var v := Step(Step(w, Launch(pid, WriteProbe(device), supported)), Proceed(pid, true));
      && pid in v.live && v.live[pid].phase.Owning? && v.locks == w.locks[device := pid]
      && v.instance == w.instance && v.socket == w.socket
      && Step(v, Command(pid, device, writable, false)).sent == w.sent + [Sent(pid, device, v.live.Keys)]
      && (other != device ==> Step(v, Command(pid, other, writable, false)) == v)
      && device !in Step(v, Proceed(pid, true)).locks
  {
    var v := Step(Step(w, Launch(pid, WriteProbe(device), supported)), Proceed(pid, true));
    var p := v.live[pid];
    assert p == Process(WriteProbe(device), Owning([]), supported, false, false);
    assert v.live[pid := p.(showing := p.showing)].Keys == v.live.Keys;
  }

  /** A daemon stopped in order takes the socket off the path before it goes, and then the instance is free. */
  lemma AnOrderlyStopUnlinks(w: World, pid: Pid)
    requires pid in w.live && w.live[pid].kind.Daemon? && w.live[pid].phase.Serving?
    requires w.instance == Some(pid) && w.socket == Some(pid)
    ensures var stopping := Step(w, Proceed(pid, true));
      var unlinked := Step(stopping, Proceed(pid, true));
      var gone := Step(unlinked, Proceed(pid, true));
      && stopping.socket == Some(pid) && pid in stopping.live
      && unlinked.socket == None && pid in unlinked.live && unlinked.instance == Some(pid)
      && pid !in gone.live && gone.instance == None && gone.socket == None
  {
    var stopping := Step(w, Proceed(pid, true));
    assert stopping.live[pid].phase == Stopping;
    var unlinked := Step(stopping, Proceed(pid, true));
    assert unlinked.live[pid].phase == Unlinked;
  }

  /** A daemon that crashes leaves the instance and every device it held free for the next. */
  lemma ACrashFreesTheMachine(w: World, pid: Pid, asks: seq<Ask>)
    requires pid in w.live && w.instance == Some(pid)
    requires forall d :: d in w.locks ==> w.locks[d] == pid
    ensures var v := Step(w, Crash(pid));
      && v.instance.None? && v.locks == map[] && pid !in v.live
      && (Clear(map[], asks) ==> Clear(v.locks, asks))
  {
    assert Step(w, Crash(pid)).locks == map[];
  }

  // ---------------------------------------------------------------- the loop itself

  /** The lock files under the runtime directory, as every process sees them. */
  class LockDirectory {
    var held: map<Device, Pid>

    constructor ()
      ensures held == map[]
    {
      held := map[];
    }

    /** Take one device's lock without waiting for it. */
    method Acquire(pid: Pid, ask: Ask) returns (granted: bool)
      modifies this
      ensures granted == (ask.opens && ask.device !in old(held))
      ensures held == if granted then old(held)[ask.device := pid] else old(held)
    {
      granted := false;
      if ask.opens && ask.device !in held {
        held := held[ask.device := pid];
        granted := true;
      }
    }

    /** Lock every supported device, then add what other programs were seen holding. The conflicts come
        back instead of an error: the daemon starts either way. */
    method TakeOwnership(pid: Pid, supported: seq<Ask>, observed: seq<Device>)
      returns (locks: seq<Device>, conflicts: seq<Device>)
      modifies this
      ensures var t := TakeAll(old(held), pid, supported);
        held == t.held && locks == t.locks && conflicts == t.conflicts + observed
      ensures conflicts == [] ==> locks == Devices(supported)
    {
      locks, conflicts := [], [];
      for k := 0 to |supported|
        invariant Taken(held, locks, conflicts) == TakeAll(old(held), pid, supported[..k])
      {
        assert supported[..k + 1][..k] == supported[..k];
        var granted := Acquire(pid, supported[k]);
        if granted {
          locks := locks + [supported[k].device];
        } else {
          conflicts := conflicts + [supported[k].device];
        }
      }
      assert supported[..|supported|] == supported;
      ConflictFreeExactlyWhen(old(held), pid, supported);
      conflicts := conflicts + observed;
    }
  }
}
