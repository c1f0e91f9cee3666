/** The part of the operating system the identity logic talks to. */
module Kernel {
  import opened Wrappers

  /** How an attempt to read a live process's creation time ends. */
  datatype Access = Readable | Denied | Defunct

  /** One process. `serial` tells processes apart for good: it is what a PID and
      a creation time try to stand for, and psutil never sees it. */
  datatype Proc = Proc(serial: nat, ticks: nat, access: Access, killable: bool)

  type Table = map<nat, Proc>

  datatype Error = ValueError | NoSuchProcess | AccessDenied | ZombieProcess

  /** `_psplatform.Process(pid).create_time(monotonic=True)`. */
  function CreateTime(t: Table, pid: nat): Result<nat, Error> {
    if pid !in t then Err(NoSuchProcess)
    else match t[pid].access
      case Readable => Ok(t[pid].ticks)
      case Denied => Err(AccessDenied)
      case Defunct => Err(ZombieProcess)
  }
}

/** `psutil.Process` identity: `_init`, `_get_ident`, `_cmp_idents`, `__eq__`,
    `is_running`, `_raise_if_pid_reused` and `_send_signal`, as functions of the
    object's identity fields and the process table at the moment of the call. */
module Identity {
  import opened Wrappers
  import opened Kernel

  /** The largest PID `check_pid_range` lets through (a C `int`). */
  const MAX_PID := 0x7fff_ffff

  datatype Ident = Ident(pid: nat, ctime: Option<nat>)

  datatype Verdict = Same | Different | Unknown

  /** The identity fields of a Process instance. */
  datatype Handle = Handle(ident: Ident, gone: bool, pidReused: bool)

  /** Python's `not ctime`: a missing or a zero time. */
  predicate Missing(ctime: Option<nat>) {
    ctime.None? || ctime.value == 0
  }

  function CmpIdents(a: Ident, b: Ident): Verdict {
    if a.pid != b.pid then Different
    else if Missing(a.ctime) || Missing(b.ctime) then Unknown
    else if a.ctime == b.ctime then Same else Different
  }

  predicate Equal(a: Handle, b: Handle) {
    CmpIdents(a.ident, b.ident) != Different
  }

  /** `Process._init(pid, _ignore_nsp)`. */
  function Open(t: Table, pid: int, ignoreNsp: bool): Result<Handle, Error> {
    if pid < 0 then Err(ValueError)
    else if pid > MAX_PID then Err(NoSuchProcess)
    else match CreateTime(t, pid)
      case Ok(ticks) => Ok(Handle(Ident(pid, Some(ticks)), false, false))
      case Err(NoSuchProcess) =>
        if ignoreNsp then Ok(Handle(Ident(pid, None), true, false)) else Err(NoSuchProcess)
      case Err(_) => Ok(Handle(Ident(pid, None), false, false))
  }

  /** When a handle cannot be made, and when it is made for nobody. */
  lemma OpenExactly(t: Table, pid: int, ignoreNsp: bool)
    ensures var r := Open(t, pid, ignoreNsp);
            && (r == Err(ValueError) <==> pid < 0)
            && (r == Err(NoSuchProcess) <==> pid > MAX_PID || (pid >= 0 && pid !in t && !ignoreNsp))
            && (r.Err? ==> r.error == ValueError || r.error == NoSuchProcess)
            && (r.Ok? ==> r.value.ident.pid == pid && !r.value.pidReused && (r.value.gone <==> pid !in t))
  {
  }

  datatype Probe = Probe(handle: Handle, running: bool)

  /** `is_running`: the flags afterwards, and the answer. */
  function ProbeRunning(h: Handle, t: Table): Probe {
    if h.gone || h.pidReused then Probe(h, false)
    else match Open(t, h.ident.pid, false)
      case Ok(other) =>
        if !Equal(h, other) then Probe(h.(pidReused := true, gone := true), false)
        else Probe(h, true)
      case Err(_) => Probe(h.(gone := true), false)
  }

  /** `_raise_if_pid_reused`: the flags afterwards, and whether it raised. */
  function CheckReused(h: Handle, t: Table): (Handle, bool) {
    if h.pidReused then (h, true)
    else
      var p := ProbeRunning(h, t);
      (p.handle, !p.running && p.handle.pidReused)
  }

  datatype Sent = Delivered(serial: nat) | Raised(error: Error)

  /** `_send_signal`, check and `os.kill` against one and the same table. */
  function Signal(h: Handle, t: Table): (Handle, Sent) {
    var (h1, reused) := CheckReused(h, t);
    var pid := h.ident.pid;
    if reused then (h1, Raised(NoSuchProcess))
    else if pid == 0 then (h1, Raised(ValueError))
    else if pid !in t then (h1.(gone := true), Raised(NoSuchProcess))
    else if !t[pid].killable then (h1, Raised(AccessDenied))
    else (h1, Delivered(t[pid].serial))
  }

  // ----- the object the source mutates

  /** The module globals `_pids_reused` and `_pmap`. */
  class Globals {
    var pidsReused: set<nat>
    var pmap: map<nat, Process>

    constructor ()
      ensures pidsReused == {} && pmap == map[]
    {
      pidsReused, pmap := {}, map[];
    }
  }

  class Process {
    const pid: nat
    var ctime: Option<nat>
    var gone: bool
    var pidReused: bool

    ghost function Value(): Handle
      reads this
    {
      Handle(Ident(pid, ctime), gone, pidReused)
    }

    constructor (h: Handle)
      ensures Value() == h && pid == h.ident.pid
    {
      pid, ctime, gone, pidReused := h.ident.pid, h.ident.ctime, h.gone, h.pidReused;
    }

    method IsRunning(t: Table, g: Globals) returns (running: bool)
      modifies this, g`pidsReused
      ensures Probe(Value(), running) == ProbeRunning(old(Value()), t)
      ensures ctime == old(ctime)
      ensures g.pidsReused ==
              old(g.pidsReused) + if pidReused && !old(pidReused) then {pid} else {}
    {
      if gone || pidReused {
        return false;
      }
      var result := Open(t, pid, false);
      match result {
        case Err(_) =>
          gone := true;
          return false;
        case Ok(other) =>
          pidReused := CmpIdents(Ident(pid, ctime), other.ident) == Different;
          if pidReused {
            g.pidsReused := g.pidsReused + {pid};
            gone := true;
            return false;
          }
          return true;
      }
    }

    method SendSignal(t: Table, g: Globals) returns (sent: Sent)
      modifies this, g`pidsReused
      ensures (Value(), sent) == Signal(old(Value()), t)
      ensures g.pidsReused ==
              old(g.pidsReused) + if pidReused && !old(pidReused) then {pid} else {}
    {
      if pidReused {
        return Raised(NoSuchProcess);
      }
      var running := IsRunning(t, g);
      if !running && pidReused {
        return Raised(NoSuchProcess);
      }
      if pid == 0 {
        return Raised(ValueError);
      }
      if pid !in t {
        gone := true;
        return Raised(NoSuchProcess);
      }
      if !t[pid].killable {
        return Raised(AccessDenied);
      }
      return Delivered(t[pid].serial);
    }
  }
}

/** Every run of an operating system that reaps PIDs and hands them out again,
    with psutil handles being created, asked and signalled in between. */
module IdentityRuns {
  import opened Wrappers
  import opened Kernel
  import opened Identity

  datatype Birth = Birth(pid: nat, ticks: nat)

  /** `born` remembers every process that ever existed; `owners[i]` is the
      process `handles[i]` was created for. psutil sees neither. */
  datatype World = World(table: Table, born: map<nat, Birth>, handles: seq<Handle>, owners: seq<nat>)

  datatype Event =
    | Spawn(pid: nat, proc: Proc)
    | Change(pid: nat, access: Access, killable: bool)
    | Reap(pid: nat)
    | Construct(pid: nat)
    | AskRunning(i: nat)
    | Send(i: nat)

  const BOOT := World(map[], map[], [], [])

  predicate Enabled(w: World, e: Event) {
    match e
    case Spawn(pid, proc) => pid <= MAX_PID && pid !in w.table && proc.serial !in w.born
    case Change(pid, _, _) => pid in w.table
    case Reap(pid) => pid in w.table
    case Construct(pid) => pid in w.table
    case AskRunning(i) => i < |w.handles|
    case Send(i) => i < |w.handles|
  }

  function Step(w: World, e: Event): World
    requires Enabled(w, e)
  {
    match e
    case Spawn(pid, proc) =>
      w.(table := w.table[pid := proc], born := w.born[proc.serial := Birth(pid, proc.ticks)])
    case Change(pid, access, killable) =>
      w.(table := w.table[pid := w.table[pid].(access := access, killable := killable)])
    case Reap(pid) =>
      w.(table := w.table - {pid})
    case Construct(pid) =>
      var result := Open(w.table, pid, false);
      if result.Ok? then
        w.(handles := w.handles + [result.value], owners := w.owners + [w.table[pid].serial])
      else w
    case AskRunning(i) =>
      w.(handles := w.handles[i := ProbeRunning(w.handles[i], w.table).handle])
    case Send(i) =>
      w.(handles := w.handles[i := Signal(w.handles[i], w.table).0])
  }

  ghost predicate Runs(w: World, es: seq<Event>, w': World)
    decreases |es|
  {
    if es == [] then w' == w
    else Enabled(w, es[0]) && Runs(Step(w, es[0]), es[1..], w')
  }

  ghost predicate Reachable(w: World) {
    exists es :: Runs(BOOT, es, w)
  }

  /** The process handle `i` was created for still holds its PID. */
  predicate Alive(w: World, i: nat)
    requires i < |w.handles| == |w.owners|
  {
    var pid := w.handles[i].ident.pid;
    pid in w.table && w.table[pid].serial == w.owners[i]
  }

  predicate Running(w: World, i: nat)
    requires i < |w.handles|
  {
    ProbeRunning(w.handles[i], w.table).running
  }

  /** What every run keeps, whatever times the kernel hands out. */
  ghost predicate Inv(w: World) {
    && |w.handles| == |w.owners|
    && (forall pid :: pid in w.table ==>
          pid <= MAX_PID
          && w.table[pid].serial in w.born
          && w.born[w.table[pid].serial] == Birth(pid, w.table[pid].ticks))
    && (forall i :: 0 <= i < |w.handles| ==> HandleOk(w, i))
  }

  ghost predicate HandleOk(w: World, i: nat)
    requires i < |w.handles| == |w.owners|
  {
    var h, o := w.handles[i], w.owners[i];
    && o in w.born
    && h.ident.pid == w.born[o].pid
    && (h.ident.ctime.Some? ==> h.ident.ctime.value == w.born[o].ticks)
    && (h.gone || h.pidReused ==> !Alive(w, i))
  }

  lemma StepKeepsInv(w: World, e: Event)
    requires Inv(w) && Enabled(w, e)
    ensures Inv(Step(w, e))
  {
    var w' := Step(w, e);
    forall i | 0 <= i < |w'.handles|
      ensures HandleOk(w', i)
    {
      if i < |w.handles| {
        assert HandleOk(w, i);
      }
    }
  }

  lemma {:induction false} RunKeepsInv(w: World, es: seq<Event>, w': World)
    requires Inv(w) && Runs(w, es, w')
    ensures Inv(w')
    decreases |es|
  {
    if es != [] {
      StepKeepsInv(w, es[0]);
      RunKeepsInv(Step(w, es[0]), es[1..], w');
    }
  }

  lemma ReachableInv(w: World)
    requires Reachable(w)
    ensures Inv(w)
  {
    var es :| Runs(BOOT, es, w);
    RunKeepsInv(BOOT, es, w);
  }

  // ----- is_running

  /** Someone else holds the PID of handle `i` and creation times cannot tell:
      either time is unknown, or both are the same clock tick. */
  predicate Impostor(w: World, i: nat)
    requires i < |w.handles| == |w.owners|
  {
    var h := w.handles[i];
    && !h.gone && !h.pidReused
    && h.ident.pid in w.table
    && w.table[h.ident.pid].serial != w.owners[i]
    && (Missing(h.ident.ctime)
        || w.table[h.ident.pid].access != Readable
        || w.table[h.ident.pid].ticks == 0
        || Some(w.table[h.ident.pid].ticks) == h.ident.ctime)
  }

  /** No assumption on times at all: a live process is always reported as
      running, and the only wrong answer is about an impostor. */
  lemma IsRunningExact(w: World, i: nat)
    requires Reachable(w) && i < |w.handles|
    ensures |w.owners| == |w.handles|
    ensures Running(w, i) <==> Alive(w, i) || Impostor(w, i)
  {
    ReachableInv(w);
    assert HandleOk(w, i);
  }

  /** A PID is handed out again only with a later creation time, every time is
      positive, and creation times can be read. */
  ghost predicate TimesTell(w: World) {
    && (forall s :: s in w.born ==> w.born[s].ticks > 0)
    && (forall s, s' :: s in w.born && s' in w.born && s != s' && w.born[s].pid == w.born[s'].pid
                        ==> w.born[s].ticks != w.born[s'].ticks)
    && (forall pid :: pid in w.table ==> w.table[pid].access == Readable)
    && (forall i :: 0 <= i < |w.handles| ==> w.handles[i].ident.ctime.Some?)
  }

  lemma IsRunningCorrect(w: World, i: nat)
    requires Reachable(w) && TimesTell(w) && i < |w.handles|
    ensures |w.owners| == |w.handles|
    ensures Running(w, i) <==> Alive(w, i)
  {
    ReachableInv(w);
    assert HandleOk(w, i);
    IsRunningExact(w, i);
  }

  /** Two handles compare equal exactly when they were made for one process. */
  lemma EqualityIsIdentity(w: World, i: nat, j: nat)
    requires Reachable(w) && TimesTell(w) && i < |w.handles| && j < |w.handles|
    ensures |w.owners| == |w.handles|
    ensures Equal(w.handles[i], w.handles[j]) <==> w.owners[i] == w.owners[j]
  {
    ReachableInv(w);
    assert HandleOk(w, i) && HandleOk(w, j);
  }

  /** `__eq__` is transitive except through a handle with no usable time. */
  lemma EqualityTransitiveExactly(a: Handle, b: Handle, c: Handle)
    requires Equal(a, b) && Equal(b, c)
    ensures !Equal(a, c) <==>
            Missing(b.ident.ctime) && !Missing(a.ident.ctime) && !Missing(c.ident.ctime)
            && a.ident.ctime != c.ident.ctime
  {
  }

  // ----- once False, always False

  predicate Latched(w: World, i: nat)
    requires i < |w.handles|
  {
    w.handles[i].gone || w.handles[i].pidReused
  }

  lemma {:induction false} LatchHolds(w: World, es: seq<Event>, w': World, i: nat)
    requires Runs(w, es, w') && i < |w.handles| && Latched(w, i)
    ensures i < |w'.handles| && Latched(w', i)
    decreases |es|
  {
    if es != [] {
      LatchHolds(Step(w, es[0]), es[1..], w', i);
    }
  }

  /** After `is_running` has said False once, no run makes it say True again. */
  lemma FalseIsFinal(w: World, i: nat, es: seq<Event>, w': World)
    requires i < |w.handles| && !Running(w, i)
    requires Runs(Step(w, AskRunning(i)), es, w')
    ensures i < |w'.handles| && !Running(w', i)
  {
    LatchHolds(Step(w, AskRunning(i)), es, w', i);
  }

  // ----- _send_signal

  function Outcome(w: World, i: nat): Sent
    requires i < |w.handles|
  {
    Signal(w.handles[i], w.table).1
  }

  predicate ReachesStranger(w: World, i: nat)
    requires i < |w.handles| == |w.owners|
  {
    Outcome(w, i).Delivered? && Outcome(w, i).serial != w.owners[i]
  }

  /** The exact condition under which a signal reaches another process than the
      one the handle was created for, whatever times the kernel hands out: that
      process may be signalled, and either `_gone` is latched and `_pid_reused`
      is not, so that `is_running` answers without looking, or it is an impostor. */
  lemma StrangerExactly(w: World, i: nat)
    requires Reachable(w) && i < |w.handles|
    ensures |w.owners| == |w.handles|
    ensures ReachesStranger(w, i) <==>
            var h := w.handles[i];
            && h.ident.pid != 0 && h.ident.pid in w.table && w.table[h.ident.pid].killable
            && ((h.gone && !h.pidReused) || Impostor(w, i))
  {
    ReachableInv(w);
    assert HandleOk(w, i);
  }

  /** Where creation times tell processes apart, only the latch is left. */
  lemma StrangerWhenTimesTell(w: World, i: nat)
    requires Reachable(w) && TimesTell(w) && i < |w.handles|
    ensures |w.owners| == |w.handles|
    ensures ReachesStranger(w, i) <==>
            var h := w.handles[i];
            h.gone && !h.pidReused && h.ident.pid != 0
            && h.ident.pid in w.table && w.table[h.ident.pid].killable
  {
    StrangerExactly(w, i);
    ReachableInv(w);
    assert HandleOk(w, i);
  }

  /** Reuse of the PID of handle `i` has been detected, or is if one looks now. */
  predicate ReuseKnown(w: World, i: nat)
    requires i < |w.handles| == |w.owners|
  {
    var h := w.handles[i];
    || h.pidReused
    || (!h.gone && h.ident.pid in w.table && !Alive(w, i) && !Impostor(w, i))
  }

  /** What a signal does, in every run and for latched handles too: NoSuchProcess
      exactly when reuse is known or nobody holds the PID (0 apart), else ValueError
      for PID 0, else AccessDenied if the holder may not be signalled, and else the
      holder of the PID gets it. */
  lemma SignalExactly(w: World, i: nat)
    requires Reachable(w) && i < |w.handles|
    ensures |w.owners| == |w.handles|
    ensures var pid := w.handles[i].ident.pid;
            && (Outcome(w, i) == Raised(NoSuchProcess) <==> ReuseKnown(w, i) || (pid != 0 && pid !in w.table))
            && (Outcome(w, i) == Raised(ValueError) <==> !ReuseKnown(w, i) && pid == 0)
            && (Outcome(w, i) == Raised(AccessDenied) <==>
                !ReuseKnown(w, i) && pid != 0 && pid in w.table && !w.table[pid].killable)
            && (forall serial :: Outcome(w, i) == Delivered(serial) <==>
                  !ReuseKnown(w, i) && pid != 0 && pid in w.table && w.table[pid].killable
                  && serial == w.table[pid].serial)
  {
    ReachableInv(w);
    assert HandleOk(w, i);
  }

  /** What asking or signalling does to a handle's flags: `_pid_reused` is set
      exactly when reuse is known, `_gone` when it was or the process is found not
      to live (an impostor counts as living), and nothing else changes. */
  lemma FlagsExactly(w: World, i: nat, e: Event)
    requires Reachable(w) && i < |w.handles| && (e == AskRunning(i) || e == Send(i))
    ensures |w.owners| == |w.handles|
    ensures var h, w' := w.handles[i], Step(w, e);
            && w' == w.(handles := w'.handles) && |w'.handles| == |w.handles|
            && (forall j :: 0 <= j < |w.handles| && j != i ==> w'.handles[j] == w.handles[j])
            && w'.handles[i].ident == h.ident
            && (w'.handles[i].pidReused <==> ReuseKnown(w, i))
            && (w'.handles[i].gone <==> h.gone || (!h.pidReused && !Alive(w, i) && !Impostor(w, i)))
  {
    ReachableInv(w);
    assert HandleOk(w, i);
  }

  /** A handle made for a PID is its present holder's: unflagged, with the holder's
      creation time exactly when that can be read. */
  lemma ConstructExactly(w: World, pid: nat)
    requires Reachable(w) && Enabled(w, Construct(pid))
    ensures var w', p := Step(w, Construct(pid)), w.table[pid];
            && w'.owners == w.owners + [p.serial] && w'.handles[..|w.handles|] == w.handles
            && |w'.handles| == |w.handles| + 1
            && w'.handles[|w.handles|] ==
               Handle(Ident(pid, if p.access == Readable then Some(p.ticks) else None), false, false)
  {
    ReachableInv(w);
  }

  /** Entered with `_gone` false, `_send_signal` reaches the original process if it
      lives and may be signalled, and raises otherwise: AccessDenied, or ValueError
      for PID 0, if the original lives or the flag of reuse is not set and nobody
      holds PID 0, and NoSuchProcess in all other cases. */
  lemma SignalSafe(w: World, i: nat)
    requires Reachable(w) && TimesTell(w) && i < |w.handles|
    requires !w.handles[i].gone
    ensures |w.owners| == |w.handles|
    ensures var pid := w.handles[i].ident.pid;
            Outcome(w, i) ==
            if Alive(w, i) then
              if pid == 0 then Raised(ValueError)
              else if w.table[pid].killable then Delivered(w.owners[i]) else Raised(AccessDenied)
            else if pid == 0 && pid !in w.table && !w.handles[i].pidReused then Raised(ValueError)
            else Raised(NoSuchProcess)
  {
    ReachableInv(w);
    assert HandleOk(w, i);
    SignalExactly(w, i);
  }

  lemma {:induction false} RunsOn(w: World, es: seq<Event>, w': World, e: Event)
    requires Runs(w, es, w') && Enabled(w', e)
    ensures Runs(w, es + [e], Step(w', e))
    decreases |es|
  {
    hide Enabled, Step;
    if es == [] {
      assert Runs(Step(w', e), [], Step(w', e));
      assert es + [e] == [e] && [e][1..] == [];
    } else {
      RunsOn(Step(w, es[0]), es[1..], w', e);
      assert (es + [e])[1..] == es[1..] + [e];
    }
  }

  lemma ReachOn(w: World, e: Event)
    requires Reachable(w) && Enabled(w, e)
    ensures Reachable(Step(w, e))
  {
    var es :| Runs(BOOT, es, w);
    RunsOn(BOOT, es, w, e);
  }

  /** The promise is false for a latched handle: process 1 is created, a handle
      made, the process reaped, `is_running` asked, PID 7 given to process 2. */
  lemma LatchedHandleReachesSuccessor() returns (w: World)
    ensures Reachable(w) && TimesTell(w)
    ensures |w.handles| == |w.owners| == 1 && Outcome(w, 0) == Delivered(2) && w.owners[0] == 1
  {
    hide Reachable;
    w := LatchedHandle();
    ReachOn(w, Spawn(7, Proc(2, 200, Readable, true)));
    w := Step(w, Spawn(7, Proc(2, 200, Readable, true)));
  }

  lemma LatchedHandle() returns (w: World)
    ensures Reachable(w)
    ensures w == World(map[], map[1 := Birth(7, 100)], [Handle(Ident(7, Some(100)), true, false)], [1])
  {
    assert Runs(BOOT, [], BOOT);
    ReachOn(BOOT, Spawn(7, Proc(1, 100, Readable, true)));
    w := Step(BOOT, Spawn(7, Proc(1, 100, Readable, true)));
    ReachOn(w, Construct(7));
    w := Step(w, Construct(7));
    ReachOn(w, Reap(7));
    w := Step(w, Reap(7));
    ReachOn(w, AskRunning(0));
    w := Step(w, AskRunning(0));
  }

  /** So does the failure of transitivity happen: handles of PID 7 made while its
      process can be read, while it is defunct, and for its successor. */
  lemma EqualityNotTransitive() returns (w: World)
    ensures Reachable(w) && |w.handles| == 3
    ensures Equal(w.handles[0], w.handles[1]) && Equal(w.handles[1], w.handles[2])
    ensures !Equal(w.handles[0], w.handles[2])
  {
    hide Reachable;
    w := ReadableAndDefunct();
    ReachOn(w, Reap(7));
    w := Step(w, Reap(7));
    ReachOn(w, Spawn(7, Proc(2, 200, Readable, true)));
    w := Step(w, Spawn(7, Proc(2, 200, Readable, true)));
    ReachOn(w, Construct(7));
    w := Step(w, Construct(7));
  }

  lemma ReadableAndDefunct() returns (w: World)
    ensures Reachable(w) && 7 in w.table && w.born == map[1 := Birth(7, 100)]
    ensures w.handles == [Handle(Ident(7, Some(100)), false, false), Handle(Ident(7, None), false, false)]
  {
    assert Runs(BOOT, [], BOOT);
    ReachOn(BOOT, Spawn(7, Proc(1, 100, Readable, true)));
    w := Step(BOOT, Spawn(7, Proc(1, 100, Readable, true)));
    ReachOn(w, Construct(7));
    w := Step(w, Construct(7));
    ReachOn(w, Change(7, Defunct, true));
    w := Step(w, Change(7, Defunct, true));
    ReachOn(w, Construct(7));
    w := Step(w, Construct(7));
  }
}
