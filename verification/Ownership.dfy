/**
 Several processes over one machine: daemons and write probes that start, crash and exit in any
 interleaving, the instance lock, the socket path and one lock per device. Models
 crates/daemon/src/main.rs, crates/daemon/src/server.rs, crates/daemon/src/startup.rs and
 crates/daemon/src/ownership.rs.
 */
module Ownership {
  import opened Basics

  datatype Device = Kraken | RgbController

  /** A process, never reused for another one. */
  type Pid = nat

  datatype Kind = Daemon | WriteProbe(device: Device)

  /** Where a process is in its fixed sequence. A daemon goes Launched, Locked, Cleared, Bound, Owning,
      Serving, Stopping, Unlinked; a probe goes Launched, Owning. `todo` is what is left to lock. */
  datatype Phase = Launched | Locked | Cleared | Bound | Owning(todo: seq<Device>) | Serving | Stopping | Unlinked

  /** A live process: the devices it found supported when it probed, whether anything stood between it
      and a device, and whether its panel executor holds a picture or an animation. */
  datatype Process = Process(
    kind: Kind, phase: Phase, supported: seq<Device>, conflicted: bool, showing: bool)

  /** One command sent to a device, and who was alive when it was. */
  datatype Sent = Sent(pid: Pid, device: Device, live: set<Pid>)

  /** `socket` is the process whose listener the socket path names, dead or alive. The kernel drops a
      lock with its holder, so a holder is always alive. */
  datatype World = World(
    live: map<Pid, Process>, past: set<Pid>,
    instance: Option<Pid>, locks: map<Device, Pid>, socket: Option<Pid>, sent: seq<Sent>)

  /** What can happen next. The booleans are what the environment answers. */
  datatype Event =
    | Launch(pid: Pid, kind: Kind, supported: seq<Device>)
    | Proceed(pid: Pid, ok: bool)
    | Crash(pid: Pid)
    | Command(pid: Pid, device: Device, writable: bool, picture: bool)
    | Tick(pid: Pid)

  /** A process is gone: its locks go with it, the socket path stays as it was. */
  function Gone(w: World, pid: Pid): World {
    w.(live := w.live - {pid},
       instance := if w.instance == Some(pid) then None else w.instance,
       locks := map d | d in w.locks && w.locks[d] != pid :: w.locks[d])
  }

  function With(w: World, pid: Pid, p: Process): World {
    w.(live := w.live[pid := p])
  }

  /** The next step of one live process; a step its environment refuses ends it. */
  function Next(w: World, pid: Pid, p: Process, ok: bool): World {
    match p.phase
    case Launched =>
      if p.kind.WriteProbe? then
        if p.kind.device in w.locks || !ok then Gone(w, pid)
        else With(w, pid, p.(phase := Owning([]))).(locks := w.locks[p.kind.device := pid])
      else if w.instance.Some? || !ok then Gone(w, pid)
      else With(w, pid, p.(phase := Locked)).(instance := Some(pid))
    case Locked =>
      if !ok then Gone(w, pid) else With(w, pid, p.(phase := Cleared)).(socket := None)
    case Cleared =>
      if w.socket.Some? || !ok then Gone(w, pid)
      else With(w, pid, p.(phase := Bound)).(socket := Some(pid))
    case Bound =>
      if !ok then Gone(w, pid) else With(w, pid, p.(phase := Owning(p.supported)))
    case Owning(todo) =>
      if p.kind.WriteProbe? then Gone(w, pid)
      else if todo == [] then With(w, pid, p.(phase := Serving, conflicted := p.conflicted || !ok))
      else if todo[0] in w.locks || !ok then With(w, pid, p.(phase := Owning(todo[1..]), conflicted := true))
      else With(w, pid, p.(phase := Owning(todo[1..]))).(locks := w.locks[todo[0] := pid])
    case Serving => With(w, pid, p.(phase := Stopping))
    case Stopping =>
      With(w, pid, p.(phase := Unlinked)).(socket := if ok then None else w.socket)
    case Unlinked => Gone(w, pid)
  }

  /** The daemon has been through every device and can be asked for something. */
  predicate Started(p: Process) { p.phase.Serving? || p.phase.Stopping? || p.phase.Unlinked? }

  /** Whether a request of this process reaches `device`: the gate of every write path. */
  predicate GateOpens(p: Process, device: Device, writable: bool) {
    match p.kind
    case Daemon =>
      Started(p) && device in p.supported && writable && !p.conflicted
    case WriteProbe(own) => p.phase.Owning? && device == own
  }

  function Send(w: World, pid: Pid, device: Device): World {
    w.(sent := w.sent + [Sent(pid, device, w.live.Keys)])
  }

  function Step(w: World, e: Event): World {
    match e
    case Launch(pid, kind, supported) =>
      if pid in w.past then w
      else With(w, pid, Process(kind, Launched, supported, false, false)).(past := w.past + {pid})
    case Proceed(pid, ok) => if pid in w.live then Next(w, pid, w.live[pid], ok) else w
    case Crash(pid) => if pid in w.live then Gone(w, pid) else w
    case Command(pid, device, writable, picture) =>
      if pid in w.live && GateOpens(w.live[pid], device, writable) then
        var p := w.live[pid];
        Send(With(w, pid, p.(showing := p.showing || (p.kind.Daemon? && device.Kraken? && picture))), pid, device)
      else w
    case Tick(pid) =>
      // A tick asks nobody: it sends whenever there is something to show.
      if pid in w.live && w.live[pid].phase.Serving? && w.live[pid].showing then Send(w, pid, Kraken) else w
  }

  function Run(events: seq<Event>): World {
    if events == [] then World(map[], {}, None, map[], None, [])
    else Step(Run(events[..|events| - 1]), events[|events| - 1])
  }

  // ---------------------------------------------------------------- what every step keeps

  /** The process holds the lock of every device it supports and has been through. */
  predicate HoldsAll(w: World, pid: Pid, devices: seq<Device>) {
    forall d | d in devices :: d in w.locks && w.locks[d] == pid
  }

  /** The devices of `supported` that are no longer in `todo`. */
  predicate Behind(supported: seq<Device>, todo: seq<Device>) {
    |todo| <= |supported| && todo == supported[|supported| - |todo|..]
  }

  /** What one live process is owed by the world. */
  ghost predicate InOrder(w: World, pid: Pid, p: Process) {
    && (p.kind.WriteProbe? ==>
          && (p.phase.Launched? || p.phase.Owning?)
          && !p.showing
          && (p.phase.Owning? ==> HoldsAll(w, pid, [p.kind.device])))
    && (p.kind.Daemon? ==>
          && (w.instance == Some(pid) <==> !p.phase.Launched?)
          && (p.phase.Cleared? ==> w.socket.None?)
          && (p.phase.Bound? || p.phase.Owning? || p.phase.Serving? || p.phase.Stopping? ==> w.socket == Some(pid))
          && (p.phase.Owning? ==>
                && Behind(p.supported, p.phase.todo)
                && (!p.conflicted ==> HoldsAll(w, pid, p.supported[..|p.supported| - |p.phase.todo|])))
          && (Started(p) ==>
                !p.conflicted ==> HoldsAll(w, pid, p.supported))
          && (p.showing ==>
                !p.conflicted && Kraken in p.supported
                && Started(p)))
  }

  /** The sender of a command holds the lock of what it sent to, for as long as it lives. */
  ghost predicate StillOwns(w: World, s: Sent)
    requires s.pid in w.live
  {
    && s.device in w.locks && w.locks[s.device] == s.pid
    && (w.live[s.pid].kind.Daemon? ==> Started(w.live[s.pid]) && !w.live[s.pid].conflicted)
  }

  ghost predicate Invariant(w: World) {
    && w.live.Keys <= w.past
    && (w.instance.Some? ==> w.instance.value in w.live && w.live[w.instance.value].kind.Daemon?)
    && (forall d :: d in w.locks ==> w.locks[d] in w.live)
    && (forall pid :: pid in w.live ==> InOrder(w, pid, w.live[pid]))
    && (forall k :: 0 <= k < |w.sent| ==>
          && w.sent[k].pid in w.past
          && (w.sent[k].pid in w.live ==> StillOwns(w, w.sent[k])))
    && Exclusive(w.sent)
  }

  /** Two commands to one device by two processes: the first sender was dead by the second. */
  ghost predicate Exclusive(sent: seq<Sent>) {
    forall i, j :: 0 <= i < j < |sent| && sent[i].device == sent[j].device && sent[i].pid != sent[j].pid
      ==> sent[i].pid !in sent[j].live
  }

  // ---------------------------------------------------------------- each step keeps it

  /** What a step may do to everybody but `pid`: nothing they hold changes hands, and the instance and
      the socket move only while nobody else has them. */
  ghost predicate Apart(w: World, v: World, pid: Pid) {
    && (forall d :: d in w.locks && w.locks[d] != pid ==> d in v.locks && v.locks[d] == w.locks[d])
    && (forall d :: d in v.locks && v.locks[d] != pid ==> d in w.locks && v.locks[d] == w.locks[d])
    && (v.instance == w.instance || (w.instance in {None, Some(pid)} && v.instance in {None, Some(pid)}))
    && (v.socket == w.socket || w.instance == Some(pid))
  }

  lemma OthersStayInOrder(w: World, v: World, pid: Pid, q: Pid, p: Process)
    requires InOrder(w, q, p) && Apart(w, v, pid) && q != pid
    ensures InOrder(v, q, p)
  {
    if p.kind.Daemon? && !p.phase.Launched? {
      assert w.instance == Some(q) && v.socket == w.socket;
    }
  }

  lemma GoneKeeps(w: World, pid: Pid)
    requires Invariant(w) && pid in w.live
    ensures Invariant(Gone(w, pid))
  {
    var v := Gone(w, pid);
    forall q | q in v.live ensures InOrder(v, q, v.live[q]) {
      OthersStayInOrder(w, v, pid, q, w.live[q]);
    }
  }

  /** A step of `pid` that leaves it in order, keeps its locks and keeps away from the others. */
  lemma StepOfOneKeeps(w: World, v: World, pid: Pid, p: Process)
    requires Invariant(w) && pid in w.live && Apart(w, v, pid)
    requires v.live == w.live[pid := p] && v.past == w.past && v.sent == w.sent
    requires p.kind == w.live[pid].kind && InOrder(v, pid, p)
    requires v.instance.Some? ==> v.instance == w.instance || p.kind.Daemon?
    requires forall d :: d in w.locks && w.locks[d] == pid ==> d in v.locks && v.locks[d] == pid
    requires Started(w.live[pid]) && p.kind.Daemon? ==> Started(p) && p.conflicted == w.live[pid].conflicted
    ensures Invariant(v)
  {
    forall q | q in v.live ensures InOrder(v, q, v.live[q]) {
      if q != pid { OthersStayInOrder(w, v, pid, q, w.live[q]); }
    }
    forall d | d in v.locks ensures v.locks[d] in v.live {
      if v.locks[d] != pid { assert d in w.locks && w.locks[d] in w.live; }
    }
    forall k | 0 <= k < |v.sent| && v.sent[k].pid in v.live ensures StillOwns(v, v.sent[k]) {
      assert StillOwns(w, w.sent[k]);
    }
  }

  /** One device of the list: its lock, or a conflict. */
  lemma LockingOneKeeps(w: World, pid: Pid, ok: bool)
    requires Invariant(w) && pid in w.live && w.live[pid].kind.Daemon? && w.live[pid].phase.Owning?
    requires w.live[pid].phase.todo != []
    ensures Invariant(Next(w, pid, w.live[pid], ok))
  {
    var p, v := w.live[pid], Next(w, pid, w.live[pid], ok);
    var todo := p.phase.todo;
    var done := |p.supported| - |todo|;
    assert InOrder(w, pid, p);
    assert p.supported[done] == todo[0];
    assert p.supported[..done + 1] == p.supported[..done] + [todo[0]];
    assert Behind(p.supported, todo[1..]);
    StepOfOneKeeps(w, v, pid, v.live[pid]);
  }

  lemma LockingKeeps(w: World, pid: Pid, ok: bool)
    requires Invariant(w) && pid in w.live && w.live[pid].kind.Daemon? && w.live[pid].phase.Owning?
    ensures Invariant(Next(w, pid, w.live[pid], ok))
  {
    var p, v := w.live[pid], Next(w, pid, w.live[pid], ok);
    if p.phase.todo != [] {
      LockingOneKeeps(w, pid, ok);
    } else {
      assert InOrder(w, pid, p);
      assert p.supported[..|p.supported|] == p.supported;
      StepOfOneKeeps(w, v, pid, v.live[pid]);
    }
  }

  /** The first step: one lock, the instance's or the device's. */
  lemma LaunchedKeeps(w: World, pid: Pid, ok: bool)
    requires Invariant(w) && pid in w.live && w.live[pid].phase.Launched?
    ensures Invariant(Next(w, pid, w.live[pid], ok))
  {
    var p, v := w.live[pid], Next(w, pid, w.live[pid], ok);
    assert InOrder(w, pid, p);
    if (if p.kind.WriteProbe? then p.kind.device in w.locks else w.instance.Some?) || !ok {
      GoneKeeps(w, pid);
    } else {
      StepOfOneKeeps(w, v, pid, v.live[pid]);
    }
  }

  /** The steps that leave the device locks alone. */
  lemma SocketStepKeeps(w: World, pid: Pid, ok: bool)
    requires Invariant(w) && pid in w.live && w.live[pid].kind.Daemon?
    requires !w.live[pid].phase.Launched? && !w.live[pid].phase.Owning?
    ensures Invariant(Next(w, pid, w.live[pid], ok))
  {
    var p, v := w.live[pid], Next(w, pid, w.live[pid], ok);
    assert InOrder(w, pid, p);
    if pid !in v.live {
      GoneKeeps(w, pid);
    } else {
      assert p.supported[..0] == [];
      StepOfOneKeeps(w, v, pid, v.live[pid]);
    }
  }

  lemma ProceedingKeeps(w: World, pid: Pid, ok: bool)
    requires Invariant(w) && pid in w.live
    ensures Invariant(Next(w, pid, w.live[pid], ok))
  {
    var p := w.live[pid];
    assert InOrder(w, pid, p);
    if p.phase.Launched? {
      LaunchedKeeps(w, pid, ok);
    } else if p.kind.WriteProbe? {
      GoneKeeps(w, pid);
    } else if p.phase.Owning? {
      LockingKeeps(w, pid, ok);
    } else {
      SocketStepKeeps(w, pid, ok);
    }
  }

  /** Whoever gets past its gate holds the lock of the device. */
  lemma TheGateIsTheLock(w: World, pid: Pid, device: Device, writable: bool)
    requires Invariant(w) && pid in w.live && GateOpens(w.live[pid], device, writable)
    ensures device in w.locks && w.locks[device] == pid
  {
    var p := w.live[pid];
    assert InOrder(w, pid, p);
    if p.kind.WriteProbe? { assert device in [p.kind.device]; }
  }

  lemma SendingKeeps(w: World, pid: Pid, device: Device)
    requires Invariant(w) && pid in w.live && device in w.locks && w.locks[device] == pid
    requires w.live[pid].kind.Daemon? ==> Started(w.live[pid]) && !w.live[pid].conflicted
    ensures Invariant(Send(w, pid, device))
  {
    var v := Send(w, pid, device);
    forall q | q in v.live ensures InOrder(v, q, v.live[q]) {
      if q != pid { OthersStayInOrder(w, v, pid, q, w.live[q]); } else { assert InOrder(w, q, w.live[q]); }
    }
    forall k | 0 <= k < |v.sent| && v.sent[k].pid in v.live ensures StillOwns(v, v.sent[k]) {
      if k < |w.sent| { assert StillOwns(w, w.sent[k]); }
    }
    forall i, j | 0 <= i < j < |v.sent| && v.sent[i].device == v.sent[j].device && v.sent[i].pid != v.sent[j].pid
      ensures v.sent[i].pid !in v.sent[j].live
    {
      assert i < |w.sent| && (w.sent[i].pid in w.live ==> StillOwns(w, w.sent[i]));
    }
  }

  lemma CommandKeeps(w: World, pid: Pid, device: Device, writable: bool, p: Process)
    requires Invariant(w) && pid in w.live && GateOpens(w.live[pid], device, writable)
    requires p == w.live[pid].(showing := p.showing)
    requires p.showing ==> w.live[pid].showing || (p.kind.Daemon? && device.Kraken?)
    ensures Invariant(Send(With(w, pid, p), pid, device))
  {
    TheGateIsTheLock(w, pid, device, writable);
    assert InOrder(w, pid, w.live[pid]);
    StepOfOneKeeps(w, With(w, pid, p), pid, p);
    SendingKeeps(With(w, pid, p), pid, device);
  }

  lemma LaunchingKeeps(w: World, pid: Pid, kind: Kind, supported: seq<Device>)
    requires Invariant(w) && pid !in w.past
    ensures Invariant(Step(w, Launch(pid, kind, supported)))
  {
    var v := Step(w, Launch(pid, kind, supported));
    forall q | q in v.live ensures InOrder(v, q, v.live[q]) {
      if q != pid { OthersStayInOrder(w, v, pid, q, w.live[q]); }
    }
    forall k | 0 <= k < |v.sent| && v.sent[k].pid in v.live ensures StillOwns(v, v.sent[k]) {
      assert StillOwns(w, w.sent[k]);
    }
  }

  /** Whatever happens next, every live process is owed what it was owed. */
  lemma EveryStepKeeps(w: World, e: Event)
    requires Invariant(w)
    ensures Invariant(Step(w, e))
  {
    match e
    case Launch(pid, kind, supported) => if pid !in w.past { LaunchingKeeps(w, pid, kind, supported); }
    case Proceed(pid, ok) => if pid in w.live { ProceedingKeeps(w, pid, ok); }
    case Crash(pid) => if pid in w.live { GoneKeeps(w, pid); }
    case Command(pid, device, writable, picture) =>
      if pid in w.live && GateOpens(w.live[pid], device, writable) {
        var p := w.live[pid];
        CommandKeeps(w, pid, device, writable, p.(showing := p.showing || (p.kind.Daemon? && device.Kraken? && picture)));
      }
    case Tick(pid) =>
      if pid in w.live && w.live[pid].phase.Serving? && w.live[pid].showing {
        assert InOrder(w, pid, w.live[pid]);
        SendingKeeps(w, pid, Kraken);
      }
  }

  lemma {:induction false} EveryRunIsInOrder(events: seq<Event>)
    ensures Invariant(Run(events))
  {
    if events != [] {
      EveryRunIsInOrder(events[..|events| - 1]);
      EveryStepKeeps(Run(events[..|events| - 1]), events[|events| - 1]);
    }
  }

  // ---------------------------------------------------------------- what no interleaving breaks

  /** Never two writers: if two processes both sent commands to one device, the first was gone by the
      time the second sent. */
  lemma OneWriterPerDevice(events: seq<Event>, i: nat, j: nat)
    requires i < j < |Run(events).sent|
    requires Run(events).sent[i].device == Run(events).sent[j].device
    requires Run(events).sent[i].pid != Run(events).sent[j].pid
    ensures Run(events).sent[i].pid !in Run(events).sent[j].live
  {
    EveryRunIsInOrder(events);
  }

  /** At most one live daemon is past the instance lock, and until it unlinks the path on its own way
      out, the socket path names that daemon's listener. */
  lemma OneInstance(events: seq<Event>, a: Pid, b: Pid)
    requires a in Run(events).live && Run(events).live[a].kind.Daemon? && !Run(events).live[a].phase.Launched?
    requires b in Run(events).live && Run(events).live[b].kind.Daemon? && !Run(events).live[b].phase.Launched?
    ensures a == b && Run(events).instance == Some(a)
    ensures Run(events).live[a].phase !in {Locked, Cleared, Unlinked} ==> Run(events).socket == Some(a)
  {
    EveryRunIsInOrder(events);
    assert InOrder(Run(events), a, Run(events).live[a]) && InOrder(Run(events), b, Run(events).live[b]);
  }

  /** A tick asks no gate and needs none: what it redraws was put there by a command that asked. */
  lemma TicksNeedNoGate(events: seq<Event>, pid: Pid)
    requires pid in Run(events).live && Run(events).live[pid].showing
    ensures GateOpens(Run(events).live[pid], Kraken, true)
    ensures Kraken in Run(events).locks && Run(events).locks[Kraken] == pid
  {
    EveryRunIsInOrder(events);
    assert InOrder(Run(events), pid, Run(events).live[pid]);
  }

  /** Nothing goes stale: a lock names somebody alive, so with nobody left every lock is free. */
  lemma LocksDieWithTheirHolders(events: seq<Event>)
    ensures forall d :: d in Run(events).locks ==> Run(events).locks[d] in Run(events).live
    ensures Run(events).instance.Some? ==> Run(events).instance.value in Run(events).live
    ensures Run(events).live == map[] ==> Run(events).locks == map[] && Run(events).instance.None?
  {
    EveryRunIsInOrder(events);
  }

  /** A daemon that met a conflict over any device sends nothing to any device for as long as it lives. */
  lemma ConflictMeansReadOnly(events: seq<Event>, k: nat)
    requires k < |Run(events).sent|
    ensures Run(events).sent[k].pid in Run(events).live && Run(events).live[Run(events).sent[k].pid].kind.Daemon?
      ==> !Run(events).live[Run(events).sent[k].pid].conflicted
  {
    EveryRunIsInOrder(events);
  }
}
