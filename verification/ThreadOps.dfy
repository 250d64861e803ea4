/** The requests the debugger module serves, on top of the thread machine:
    fetching a debug event, memory access, suspension of single threads, pausing,
    starting, detaching and killing the process, and runs of such requests. */
module ThreadOps {
  import opened DebugEvents
  import opened LeastElement
  import opened ThreadMachine

  datatype BptKind = Hardware(hea: word) | Software | Unknown

  // What a breakpoint signal turned out to be.
  datatype Cause =
    | LibraryBpt(returned: bool, steps: seq<SideStep>)
    | ThreadBpt(returned: bool, steps: seq<SideStep>)
    | UserBpt(steps: seq<SideStep>, kind: BptKind)

  // The environment of one pass through get_debug_event.
  datatype Round = Round(env: Env, noTimeout: bool, ip: word, cause: Cause)

  datatype Got = Got(m: Machine, ev: Option<Event>)

  function BptAddress(arm: bool, sig: nat, ip: word): word {
    if arm then (if sig == SIGTRAP || sig == SIGILL then ip else BADADDR)
    else if sig == SIGTRAP then (if ip == 0 then BADADDR else ip - 1)
    else BADADDR
  }

  // The RESUME label of get_debug_event.
  ghost function Silently(m: Machine, ev: Event, conts: map<Tid, ContResult>): Got {
    if !m.requestedToSuspend && !m.inEvent then Got(ResumeApp(m, conts).m, None)
    else Got(m, Some(ev.(eid := PROCESS_SUSPEND)))
  }

  // The EVENT_READY label.  A thread that was deleted on the way has no record to write to.
  function Ready(m: Machine, t: Tid, ev: Event): Got {
    var m1 := if t in m.threads then SetThread(m, t, m.threads[t].(singleStep := false)) else m;
    Got(m1.(lastEvent := ev), Some(ev))
  }

  // The tail of the WIFSTOPPED branch, with the final signal code and event.
  ghost function Deliver(m: Machine, t: Tid, code: nat, suspend: bool, ev: Event, conts: map<Tid, ContResult>): Got
    requires t in m.threads
  {
    var m1 := SetThread(m, t, m.threads[t].(childSignum := code));
    if !suspend && ev.eid == EXCEPTION then Silently(m1, ev, conts) else Ready(m1, t, ev)
  }

  // A breakpoint signal at ea: m is the state before the side effects of the
  // breakpoint, m1 the one after them, code the signal kept for an unknown one.
  ghost function BptEvent(m: Machine, m1: Machine, t: Tid, ea: word, suspend: bool, code: nat, ev: Event,
      rd: Round): Got
    requires t in m1.threads
  {
    var conts := rd.env.conts;
    match rd.cause
    case LibraryBpt(returned, _) =>
      if !returned then Got(m, Some(ev))
      else if |m1.events| == |m.events| then Silently(m1, ev, conts)
      else Deliver(m1, t, 0, suspend, ev.(eid := NO_EVENT), conts)
    case ThreadBpt(returned, _) =>
      if !returned then Got(m1, Some(ev))
      else if |m1.events| == |m.events| then Silently(m1, ev, conts)
      else Deliver(m1, t, 0, suspend, ev.(eid := NO_EVENT), conts)
    case UserBpt(_, kind) =>
      match kind
      case Hardware(hea) =>
        Deliver(m1, t, 0, suspend, ev.(eid := BREAKPOINT, payload := Bpt(hea, BADADDR)), conts)
      case Software =>
        Deliver(m1, t, 0, suspend, ev.(eid := BREAKPOINT, ea := ea, payload := Bpt(BADADDR, BADADDR)), conts)
      case Unknown =>
        if m1.threads[t].singleStep then Deliver(m1, t, 0, suspend, ev.(eid := STEP), conts)
        else Deliver(m1, t, code, suspend, ev, conts)
  }

  ghost function StopEvent(m: Machine, t: Tid, sig: nat, rd: Round, waits: seq<Report>, base: Event): Got
    requires t in m.threads
  {
    var conts := rd.env.conts;
    var ev := base.(eid := EXCEPTION, payload := Exc(ExceptionInfo(sig % TWO_32, true, BADADDR, [])));
    if sig == SIGSTOP && m.threads[t].waitingSigstop then
      Silently(SetThread(m, t, m.threads[t].(waitingSigstop := false)), ev, conts)
    else
      var known := sig in m.exceptions;
      var suspend := known ==> m.exceptions[sig].breakOn;
      var masked := known && m.exceptions[sig].handle;
      var ea := BptAddress(m.arm, sig, base.ea);
      if ea != BADADDR then
        BptEvent(m, SideEffects(Stepped(m, waits), rd.cause.steps).m, t, ea, suspend, if masked then 0 else sig, ev, rd)
      else
        Deliver(m, t, if !suspend && masked then 0 else sig, suspend, ev, conts)
  }

  function ExitEvent(m: Machine, t: Tid, status: WaitStatus, base: Event): Got
    requires t in m.threads
  {
    var code := match status case Signaled(sig) => sig case Exited(c) => c case _ => 0;
    var ev := base.(payload := ExitCode(code));
    if |m.threads| <= 1 || Some(t) == m.process then
      Ready(m.(exited := true), t, ev.(eid := PROCESS_EXIT))
    else Ready(DeadThread(m, t, Dead), t, ev.(eid := NO_EVENT))
  }

  // The event of a stopped thread, once all threads are frozen.
  ghost function PrepareEvent(m: Machine, r: Report, prepared: bool, rd: Round, waits: seq<Report>): Got
    requires r.pid in m.threads
  {
    var base := Event(NO_EVENT, ProcessId(m), r.pid, if m.exited then BADADDR else rd.ip, false, NoPayload);
    if prepared then Ready(m, r.pid, Event(NO_EVENT, 0, NO_THREAD, 0, false, NoPayload))
    else if r.status.StoppedBy? then StopEvent(m, r.pid, r.status.sig, rd, waits, base)
    else ExitEvent(m, r.pid, r.status, base)
  }

  // The thread is stopped: freeze all threads and hold the application.
  ghost function Halt(m: Machine, t: Tid, env: Env): (f: Frozen)
    requires t in m.threads
    ensures t in f.m.threads && f.m.threads[t].state == Stopped
  {
    var m1 := SetThread(m, t, m.threads[t].(state := Stopped));
    FreezeKeepsStopped(m1, NO_THREAD, true, env, t);
    var f := Freeze(m1, NO_THREAD, true, env);
    if f.done then f.(m := f.m.(mayRun := false)) else f
  }

  // Assertion 30057: a thread taken for stopped does not report a stop.
  function NotStopped(m: Machine, r: Report): (z: Machine)
    requires r.pid in m.threads
    ensures z == m.(kernel := m.kernel.(broken := z.kernel.broken))
  {
    var th := m.threads[r.pid];
    Asserted(m, th.state != Stopped || m.exited || !r.status.StoppedBy?, Broken(30057, th, r.status))
  }

  ghost function GetDebugEvent(m: Machine, rd: Round): Got {
    var c := CheckNewEvents(m, rd.env.waits, rd.noTimeout);
    if c.found.None? || c.found.value.pid !in c.m.threads then Got(c.m, None)
    else
      var m1 := NotStopped(c.m, c.found.value);
      var f := Halt(m1, c.found.value.pid, rd.env.(waits := c.waits));
      if !f.done then Got(f.m, None)
      else PrepareEvent(f.m, c.found.value, c.prepared, rd, f.waits)
  }

  // dbg_get_debug_event; rounds is one environment for each pass of its loop.
  ghost function FetchEvent(m: Machine, rounds: seq<Round>): Got
    decreases |rounds|
  {
    if m.events != [] then
      Got(m.(events := m.events[1..], inEvent := true, requestedToSuspend := false), Some(m.events[0]))
    else if rounds == [] then Got(m, None)
    else
      var g := GetDebugEvent(m, rounds[0]);
      if g.ev.None? then g else FetchEvent(Enqueue(g.m, g.ev.value, InBack), rounds[1..])
  }

  // The suspend/resume bracket of _read_memory and _write_memory.
  ghost function AccessMemory(m: Machine, env: Env): Machine {
    if m.exited || m.process.None? then m
    else
      var f := Freeze(m, NO_THREAD, true, env);
      if f.done then Thaw(f.m, NO_THREAD, true, env.conts).m else f.m
  }

  ghost function SuspendThread(m: Machine, t: Tid, env: Env): Machine {
    if t !in m.threads then m
    else
      var f := Freeze(m, t, false, env);
      if f.done && t in f.m.threads then
        SetThread(f.m, t, f.m.threads[t].(userSuspend := f.m.threads[t].userSuspend + 1))
      else f.m
  }

  ghost function ContinueThread(m: Machine, t: Tid, conts: map<Tid, ContResult>): Machine {
    if t !in m.threads then m
    else
      var th := m.threads[t];
      if th.userSuspend > 1 then SetThread(m, t, th.(userSuspend := th.userSuspend - 1))
      else Thaw(SetThread(m, t, th.(userSuspend := 0)), t, false, conts).m
  }

  function SetResumeMode(m: Machine, t: Tid, into: bool): Machine {
    if into && t in m.threads then SetThread(m, t, m.threads[t].(singleStep := true)) else m
  }

  ghost function PauseProcess(m: Machine): Machine {
    var m1 :=
      if m.events == [] && m.threads.Keys != {} then
        var t := Least(m.threads.Keys);
        SetThread(m, t, m.threads[t].(waitingSigstop := true))
      else m;
    m1.(mayRun := false, requestedToSuspend := true)
  }

  function SlayOne(s: Thawed, t: Tid, failed: set<Tid>): (r: Thawed)
    requires t in s.m.threads
    ensures r.m.threads.Keys == s.m.threads.Keys
  {
    var ok := s.ok && t !in failed;
    Thawed(if ok then SetThread(Released(s.m, t), t, s.m.threads[t].(state := Running, suspendCount := 0)) else s.m, ok)
  }

  ghost function SlayAll(s: Thawed, todo: set<Tid>, failed: set<Tid>): (r: Thawed)
    requires todo <= s.m.threads.Keys
    decreases |todo|
  {
    if todo == {} then s
    else
      var t := Least(todo);
      SlayAll(SlayOne(s, t, failed), todo - {t}, failed)
  }

  // dbg_exit_process; failed are the threads that could not be killed.
  ghost function ExitProcess(m: Machine, env: Env, failed: set<Tid>): Machine {
    var f := Freeze(m, NO_THREAD, true, env);
    if !f.done then f.m
    else
      var s := SlayAll(Thawed(f.m, true), f.m.threads.Keys, failed);
      s.m.(process := if s.ok then None else s.m.process, mayRun := true, exited := true)
  }

  function Detach(m: Machine, ok: bool): Machine {
    if !ok then m
    else
      var ev := Event(PROCESS_DETACH, ProcessId(m), ProcessId(m), BADADDR, true, NoPayload);
      Enqueue(m, ev, InBack)
        .(inEvent := false, exited := true, threads := map[], process := None, kernel := m.kernel.(stopped := {}))
  }

  // handle_process_start, which takes the first stop of the process; hasMaps is whether the
  // file of memory areas could be opened, steps are the interpreter events of add_shlib_bpt.
  function StartProcess(m: Machine, pid: Tid, hasMaps: bool, steps: seq<SideStep>, attach: bool): Machine {
    var m0 := m.(deleted := [], process := Some(pid), kernel := m.kernel.(stopped := m.kernel.stopped + {pid}));
    var m1 := AddThread(m0, pid).(mayRun := false);
    if !hasMaps then m1
    else
      var m2 := SideEffects(Stepped(m1, []), steps).m;
      var ev := Event(PROCESS_START, pid, pid, BADADDR, true, NoPayload);
      var m3 := Enqueue(m2, ev, InBack);
      if attach then Enqueue(m3, ev.(eid := PROCESS_ATTACH), InBack) else m3
  }

  ghost function AccessAll(m: Machine, envs: seq<Env>): Machine
    decreases |envs|
  {
    if envs == [] then m else AccessAll(AccessMemory(m, envs[0]), envs[1..])
  }

  // dbg_continue_broken_connection: the event is dropped, breakpoints are written back (with
  // a memory access for each), and the process is attached to as it is.
  ghost function Reconnect(m: Machine, pid: Tid, envs: seq<Env>, hasMaps: bool,
                           steps: seq<SideStep>, libraries: seq<SideStep>): Machine {
    var m1 := StartProcess(AccessAll(m.(inEvent := false), envs), pid, hasMaps, steps, true);
    if hasMaps then SideEffects(Stepped(m1, []), libraries).m else m1
  }

  // dbg_term
  ghost function Terminate(m: Machine, env: Env, failed: set<Tid>): Machine {
    var m1 := if m.process.Some? then ExitProcess(m, env, failed) else m;
    m1.(process := None, requestedToSuspend := false, inEvent := false, threads := map[], events := [],
        npending := 0, exited := false, exceptions := map[], kernel := m1.kernel.(stopped := {}))
  }

  datatype Op =
    | OpFetch(rounds: seq<Round>)
    | OpContinue(ev: Option<Event>, conts: map<Tid, ContResult>)
    | OpAccessMemory(env: Env)
    | OpSuspendThread(tid: Tid, env: Env)
    | OpContinueThread(tid: Tid, conts: map<Tid, ContResult>)
    | OpResumeMode(tid: Tid, into: bool)
    | OpPause
    | OpExit(env: Env, failed: set<Tid>)
    | OpDetach(ok: bool)
    | OpStart(pid: Tid, hasMaps: bool, steps: seq<SideStep>, attach: bool)
    | OpReconnect(pid: Tid, envs: seq<Env>, hasMaps: bool, steps: seq<SideStep>, libraries: seq<SideStep>)
    | OpLibraries(steps: seq<SideStep>, waits: seq<Report>)
    | OpExceptions(table: map<nat, ExceptionFlags>)
    | OpTerminate(env: Env, failed: set<Tid>)

  ghost function Apply(m: Machine, op: Op): Machine {
    match op
    case OpFetch(rounds) => FetchEvent(m, rounds).m
    case OpContinue(ev, conts) => ContinueAfter(m, ev, conts).m
    case OpAccessMemory(env) => AccessMemory(m, env)
    case OpSuspendThread(t, env) => SuspendThread(m, t, env)
    case OpContinueThread(t, conts) => ContinueThread(m, t, conts)
    case OpResumeMode(t, into) => SetResumeMode(m, t, into)
    case OpPause => PauseProcess(m)
    case OpExit(env, failed) => ExitProcess(m, env, failed)
    case OpDetach(ok) => Detach(m, ok)
    case OpStart(pid, hasMaps, steps, attach) => StartProcess(m, pid, hasMaps, steps, attach)
    case OpReconnect(pid, envs, hasMaps, steps, libraries) => Reconnect(m, pid, envs, hasMaps, steps, libraries)
    case OpLibraries(steps, waits) => SideEffects(Stepped(m, waits), steps).m
    case OpExceptions(table) => m.(exceptions := table)
    case OpTerminate(env, failed) => Terminate(m, env, failed)
  }

  ghost function Run(m: Machine, ops: seq<Op>): Machine
    decreases |ops|
  {
    if ops == [] then m else Run(Apply(m, ops[0]), ops[1..])
  }

  // The debugger module right after construction.
  function Initial(arm: bool): Machine {
    Machine(map[], [], 0, false, false, false, false, [], [],
            Event(NO_EVENT, 0, NO_THREAD, 0, false, NoPayload), None, map[], arm, [], Kernel({}, true, []))
  }
}
