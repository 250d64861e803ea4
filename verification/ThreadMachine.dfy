/** The ptrace thread and event machine as functions on its state: what every
    operation of the debugger module does to the thread table, the event queue,
    the pending-signal counter and the run flags.  The kernel's answers (kill,
    wait and resume results, signal causes) are arguments. */
module ThreadMachine {
  import opened DebugEvents
  import opened LeastElement

  datatype ThreadState = Running | Stopped | Dying | Dead

  // A wait status; clone is the new thread id carried by a PTRACE_EVENT_CLONE stop.
  datatype WaitStatus =
    | StoppedBy(sig: nat, clone: Option<Tid>)
    | Exited(code: word)
    | Signaled(termsig: word)
    | Continued

  datatype Thread = Thread(
    suspendCount: nat,
    userSuspend: nat,
    childSignum: nat,
    singleStep: bool,
    state: ThreadState,
    waitingSigstop: bool,
    gotPending: bool,
    pendingStatus: WaitStatus)
  {
    predicate IsRunning() {
      state == Running && !waitingSigstop && !gotPending
    }

    // May a pending status of this thread be delivered?
    predicate Deliverable() {
      gotPending && userSuspend == 0 && suspendCount == 0
    }
  }

  const SIGILL: nat := 4
  const SIGTRAP: nat := 5
  const SIGSTOP: nat := 19

  const NEW_THREAD := Thread(0, 0, 0, false, Stopped, false, false, Continued)

  datatype ExceptionFlags = ExceptionFlags(breakOn: bool, handle: bool)

  // An assertion that fails, with the thread and the status it is about.
  datatype Broken = Broken(number: nat, th: Thread, status: WaitStatus)

  // The kernel's side.  stopped are the threads that have reported a stop or their end and
  // were not resumed since; honest says whether the kernel has kept its contract so far,
  // and broken are the assertions of the program that have failed.
  datatype Kernel = Kernel(stopped: set<Tid>, honest: bool, broken: seq<Broken>)

  // A resumption of a thread, with the signal passed on and whether it is by a single step.
  datatype Resumption = Resumption(tid: Tid, signal: nat, step: bool)

  // resumed is the log of the resumptions with which dbg_thaw_threads puts threads back to
  // RUNNING.
  datatype Machine = Machine(
    threads: map<Tid, Thread>,
    events: seq<Event>,
    npending: int,
    mayRun: bool,
    requestedToSuspend: bool,
    inEvent: bool,
    exited: bool,
    deleted: seq<Tid>,
    seen: seq<Tid>,
    lastEvent: Event,
    process: Option<Tid>,
    exceptions: map<nat, ExceptionFlags>,
    arm: bool,
    resumed: seq<Resumption>,
    kernel: Kernel)

  // Kernel answers.  Absent entries mean success, pid <= 0 nothing to report.
  datatype KillResult = Delivered | NoSuchThread | KillFailed
  datatype ContResult = Resumed | Refused | Zombie
  datatype Report = Report(pid: Tid, status: WaitStatus)
  datatype Env = Env(kills: map<Tid, KillResult>, conts: map<Tid, ContResult>, waits: seq<Report>)

  function KillOf(kills: map<Tid, KillResult>, t: Tid): KillResult {
    if t in kills then kills[t] else Delivered
  }

  function ContOf(conts: map<Tid, ContResult>, t: Tid): ContResult {
    if t in conts then conts[t] else Resumed
  }

  function NextReport(waits: seq<Report>): Report {
    if waits == [] then Report(0, Continued) else waits[0]
  }

  function Rest(waits: seq<Report>): seq<Report> {
    if waits == [] then [] else waits[1..]
  }

  function SetThread(m: Machine, t: Tid, th: Thread): (r: Machine)
    ensures r.threads.Keys == m.threads.Keys + {t}
  {
    m.(threads := m.threads[t := th])
  }

  // The kernel's contract for one report: a stopped thread reports no stop until it is
  // resumed; a continuation is not reported; a new thread is not its own parent.
  predicate KeepsContract(k: Kernel, r: Report) {
    && (r.status.StoppedBy? ==> r.pid !in k.stopped && r.status.clone != Some(r.pid))
    && !r.status.Continued?
  }

  // A report is taken.
  function Heard(m: Machine, r: Report): (z: Machine)
    ensures z == m.(kernel := z.kernel)
  {
    m.(kernel := m.kernel.(stopped := m.kernel.stopped + {r.pid}, honest := m.kernel.honest
        && KeepsContract(m.kernel, r)))
  }

  function Released(m: Machine, t: Tid): (z: Machine)
    ensures z == m.(kernel := z.kernel)
  {
    m.(kernel := m.kernel.(stopped := m.kernel.stopped - {t}))
  }

  function Trusted(m: Machine, ok: bool): (z: Machine)
    ensures z == m.(kernel := z.kernel)
  {
    m.(kernel := m.kernel.(honest := m.kernel.honest && ok))
  }

  // The program asserts ok.
  function Asserted(m: Machine, ok: bool, claim: Broken): (z: Machine)
    ensures z == m.(kernel := m.kernel.(broken := z.kernel.broken))
  {
    if ok then m else m.(kernel := m.kernel.(broken := m.kernel.broken + [claim]))
  }

  function Enqueue(m: Machine, ev: Event, pos: QueuePos): (z: Machine)
    ensures z == m.(events := z.events, mayRun := z.mayRun)
  {
    if ev.eid != NO_EVENT then
      m.(events := Enqueued(m.events, ev, pos), mayRun := false)
    else m
  }

  // process_handle, with INVALID_HANDLE_VALUE for no process.
  function ProcessId(m: Machine): Tid {
    if m.process.Some? then m.process.value else -1
  }

  function ThreadEvent(m: Machine, eid: word, t: Tid): Event {
    Event(eid, ProcessId(m), t, BADADDR, true, if eid == THREAD_EXIT then ExitCode(0) else NoPayload)
  }

  function AddThread(m: Machine, t: Tid): (r: Machine)
    ensures r.threads.Keys == m.threads.Keys + {t}
  {
    if t in m.threads then m else SetThread(m, t, NEW_THREAD)
  }

  function DelThread(m: Machine, t: Tid): (r: Machine)
    requires t in m.threads
    ensures r.threads.Keys == m.threads.Keys - {t}
  {
    m.(threads := m.threads - {t},
       npending := if m.threads[t].gotPending then m.npending - 1 else m.npending,
       deleted := (if |m.deleted| >= 10 then m.deleted[1..] else m.deleted) + [t])
  }

  function DeadThread(m: Machine, t: Tid, state: ThreadState): (r: Machine)
    ensures r.threads.Keys == if state.Dead? then m.threads.Keys - {t} else m.threads.Keys
  {
    if t !in m.threads then m
    else
      var m1 := Enqueue(SetThread(m, t, m.threads[t].(state := state)), ThreadEvent(m, THREAD_EXIT, t), InBack);
      if state.Dead? then DelThread(m1, t) else m1
  }

  // The SIGSTOP that a freeze, an attach or a pause is waiting for.
  predicate IsAwaitedStop(th: Thread, status: WaitStatus) {
    th.waitingSigstop && status.StoppedBy? && status.sig == SIGSTOP
  }

  function Stored(th: Thread, status: WaitStatus): Thread {
    if IsAwaitedStop(th, status) then th.(waitingSigstop := false, state := Stopped)
    else th.(gotPending := true, pendingStatus := status)
  }

  // Assertion 30185.
  function NoneLost(m: Machine, pid: Tid, status: WaitStatus): (z: Machine)
    requires pid in m.threads
    ensures z == m.(kernel := m.kernel.(broken := z.kernel.broken))
  {
    Asserted(m, !m.threads[pid].gotPending || m.exited || status.Exited?, Broken(30185, m.threads[pid], status))
  }

  function StorePending(m: Machine, pid: Tid, status: WaitStatus): (r: Machine)
    ensures r.threads == if pid in m.threads then m.threads[pid := Stored(m.threads[pid], status)] else m.threads
  {
    if pid in m.threads then
      SetThread(NoneLost(m, pid, status), pid, Stored(m.threads[pid], status))
        .(npending := if IsAwaitedStop(m.threads[pid], status) then m.npending else m.npending + 1)
    else if pid in m.deleted then Released(m, pid)  // resumed so that it can finish
    else if status.StoppedBy? then m.(seen := m.seen + [pid])
    else m
  }

  predicate IsBptStatus(arm: bool, status: WaitStatus) {
    status.StoppedBy? && (status.sig == SIGTRAP || (arm && status.sig == SIGILL))
  }

  ghost function DeliverableSet(m: Machine): set<Tid> {
    set t | t in m.threads && m.threads[t].Deliverable()
  }

  /** The thread whose pending status retrieve_pending_signal delivers: the
      thread of the last event when it qualifies, otherwise the first that does. */
  ghost function PickPending(m: Machine): Option<Tid> {
    if m.npending == 0 then None
    else if m.lastEvent.tid in DeliverableSet(m) then Some(m.lastEvent.tid)
    else if DeliverableSet(m) == {} then None
    else Some(Least(DeliverableSet(m)))
  }

  ghost function RetrievePending(m: Machine): (Machine, Option<Report>) {
    var p := PickPending(m);
    if p.None? || p.value !in m.threads then (m, None)
    else
      var th := m.threads[p.value];
      (SetThread(m, p.value, th.(gotPending := false)).(npending := m.npending - 1),
       Some(Report(p.value, th.pendingStatus)))
  }

  function HasPendingEvents(m: Machine): bool {
    m.events != [] || exists t :: t in m.threads && m.threads[t].Deliverable()
  }

  // ---------------------------------------------------------------- freeze

  predicate Selected(t: Tid, tid: Tid, exclude: bool) {
    (t == tid) != exclude
  }

  ghost function SelectedSet(m: Machine, tid: Tid, exclude: bool): set<Tid> {
    set t | t in m.threads && Selected(t, tid, exclude)
  }

  // First loop of dbg_freeze_threads, for one thread.
  datatype Signalling = Signalling(m: Machine, queue: set<Tid>, dead: seq<Tid>)

  function Signalled(th: Thread, kill: KillResult): Thread {
    if !th.IsRunning() then th.(suspendCount := th.suspendCount + 1)
    else if kill == Delivered then th.(waitingSigstop := true, suspendCount := th.suspendCount + 1)
    else th
  }

  function KillOne(s: Signalling, t: Tid, kills: map<Tid, KillResult>): Signalling
    requires t in s.m.threads
  {
    var th := s.m.threads[t];
    var kill := KillOf(kills, t);
    Signalling(SetThread(s.m, t, Signalled(th, kill)),
               if th.IsRunning() && kill == Delivered then s.queue + {t} else s.queue,
               if th.IsRunning() && kill == NoSuchThread then s.dead + [t] else s.dead)
  }

  ghost function KillAll(s: Signalling, todo: set<Tid>, kills: map<Tid, KillResult>): (r: Signalling)
    requires todo <= s.m.threads.Keys
    ensures r.m.threads.Keys == s.m.threads.Keys
    decreases |todo|
  {
    if todo == {} then s
    else
      var t := Least(todo);
      KillAll(KillOne(s, t, kills), todo - {t}, kills)
  }

  // Second loop: wait for the stops of the queued threads.
  datatype Waiting = Waiting(m: Machine, queue: set<Tid>, waits: seq<Report>)

  function WaitOne(w: Waiting): (r: Waiting)
    requires w.waits != []
    requires w.queue <= w.m.threads.Keys
    ensures r.m.threads.Keys == w.m.threads.Keys && r.queue <= w.queue && |r.waits| < |w.waits|
  {
    var Report(pid, status) := w.waits[0];
    var rest := w.waits[1..];
    var m := Heard(w.m, w.waits[0]);
    if pid <= 0 then w.(waits := rest)
    else if pid in w.queue then
      if status.StoppedBy? && status.sig == SIGSTOP then
        Waiting(SetThread(m, pid, m.threads[pid].(waitingSigstop := false, state := Stopped)), w.queue - {pid}, rest)
      else
        Waiting(StorePending(m, pid, status), w.queue - {pid}, rest)
    else Waiting(StorePending(m, pid, status), w.queue, rest)
  }

  function WaitAll(w: Waiting): (r: Waiting)
    requires w.queue <= w.m.threads.Keys
    ensures r.m.threads.Keys == w.m.threads.Keys
    decreases |w.waits|
  {
    if w.queue == {} || w.waits == [] then w else WaitAll(WaitOne(w))
  }

  function ReapAll(m: Machine, dead: seq<Tid>): Machine
    decreases |dead|
  {
    if dead == [] then m else ReapAll(DeadThread(m, dead[0], Dead), dead[1..])
  }

  // done is false while the freeze is still waiting for a SIGSTOP report, which the kernel
  // owes it.
  datatype Frozen = Frozen(m: Machine, waits: seq<Report>, done: bool)

  ghost function Signal(m: Machine, tid: Tid, exclude: bool, env: Env): Signalling {
    KillAll(Signalling(m, {}, []), SelectedSet(m, tid, exclude), env.kills)
  }

  ghost function Freeze(m: Machine, tid: Tid, exclude: bool, env: Env): Frozen {
    var s := Signal(m, tid, exclude, env);
    KillAllQueue(Signalling(m, {}, []), SelectedSet(m, tid, exclude), env.kills);
    var w := WaitAll(Waiting(s.m, s.queue, env.waits));
    if w.queue != {} then Frozen(Trusted(w.m, false), w.waits, false)
    else Frozen(ReapAll(w.m, s.dead), w.waits, true)
  }

  lemma KillAllQueue(s: Signalling, todo: set<Tid>, kills: map<Tid, KillResult>)
    requires todo <= s.m.threads.Keys && s.queue <= s.m.threads.Keys
    ensures KillAll(s, todo, kills).queue <= s.m.threads.Keys
    decreases |todo|
  {
    if todo != {} {
      var t := Least(todo);
      KillAllQueue(KillOne(s, t, kills), todo - {t}, kills);
    }
  }

  // A stopped thread survives a freeze and stays stopped.
  lemma FreezeKeepsStopped(m: Machine, tid: Tid, exclude: bool, env: Env, t: Tid)
    requires t in m.threads && m.threads[t].state == Stopped
    ensures var f := Freeze(m, tid, exclude, env);
            t in f.m.threads && f.m.threads[t].state == Stopped
  {
    var s0 := Signalling(m, {}, []);
    var todo := SelectedSet(m, tid, exclude);
    KillAllQueue(s0, todo, env.kills);
    KillAllStopped(s0, todo, env.kills, t);
    var s := Signal(m, tid, exclude, env);
    WaitAllStopped(Waiting(s.m, s.queue, env.waits), t);
    ReapAllOthers(WaitAll(Waiting(s.m, s.queue, env.waits)).m, s.dead, t);
  }

  lemma KillAllStopped(s: Signalling, todo: set<Tid>, kills: map<Tid, KillResult>, t: Tid)
    requires todo <= s.m.threads.Keys
    requires t in s.m.threads && s.m.threads[t].state == Stopped && t !in s.dead
    ensures var r := KillAll(s, todo, kills); r.m.threads[t].state == Stopped && t !in r.dead
    decreases |todo|
  {
    if todo != {} {
      var u := Least(todo);
      KillAllStopped(KillOne(s, u, kills), todo - {u}, kills, t);
    }
  }

  lemma StorePendingThread(m: Machine, pid: Tid, status: WaitStatus, t: Tid)
    requires t in m.threads
    ensures StorePending(m, pid, status).threads[t] == if t == pid then Stored(m.threads[t], status) else m.threads[t]
  {
    hide StorePending;
  }

  // The flags and the queue stay as they are.
  predicate SameFlags(m: Machine, r: Machine) {
    && r.events == m.events && r.mayRun == m.mayRun && r.requestedToSuspend == m.requestedToSuspend
    && r.inEvent == m.inEvent && r.exited == m.exited && r.process == m.process
  }

  lemma StoreFlags(m: Machine, pid: Tid, status: WaitStatus)
    ensures SameFlags(m, StorePending(m, pid, status))
  {
    hide Stored;
    hide Asserted;
    hide SetThread;
    hide Released;
    if pid in m.threads { SetFlags(NoneLost(m, pid, status), pid, Stored(m.threads[pid], status)); }
  }

  lemma SetFlags(m: Machine, t: Tid, th: Thread)
    ensures SetThread(m, t, th) == m.(threads := m.threads[t := th])
  {
  }

  lemma StorePendingStopped(m: Machine, pid: Tid, status: WaitStatus, t: Tid)
    requires t in m.threads && m.threads[t].state == Stopped
    ensures StorePending(m, pid, status).threads[t].state == Stopped
  {
    hide StorePending;
    StorePendingThread(m, pid, status, t);
  }

  lemma WaitOneStopped(w: Waiting, t: Tid)
    requires w.queue <= w.m.threads.Keys && w.waits != []
    requires t in w.m.threads && w.m.threads[t].state == Stopped
    ensures WaitOne(w).m.threads[t].state == Stopped
  {
    hide StorePending;
    hide Heard;
    var m := Heard(w.m, w.waits[0]);
    StorePendingStopped(m, w.waits[0].pid, w.waits[0].status, t);
  }

  lemma WaitAllStopped(w: Waiting, t: Tid)
    requires w.queue <= w.m.threads.Keys
    requires t in w.m.threads && w.m.threads[t].state == Stopped
    ensures WaitAll(w).m.threads[t].state == Stopped
    decreases |w.waits|
  {
    if w.queue != {} && w.waits != [] {
      WaitOneStopped(w, t);
      WaitAllStopped(WaitOne(w), t);
    }
  }

  lemma ReapAllOthers(m: Machine, dead: seq<Tid>, t: Tid)
    requires t in m.threads && t !in dead
    ensures t in ReapAll(m, dead).threads && ReapAll(m, dead).threads[t] == m.threads[t]
    decreases |dead|
  {
    if dead != [] { ReapAllOthers(DeadThread(m, dead[0], Dead), dead[1..], t); }
  }

  // ---------------------------------------------------------------- thaw

  // One iteration of dbg_thaw_threads; ok is cleared by a failed resume.
  datatype Thawed = Thawed(m: Machine, ok: bool)

  function Relieved(th: Thread): Thread {
    if th.suspendCount > 0 then th.(suspendCount := th.suspendCount - 1) else th
  }

  // Does dbg_thaw_threads leave the relieved thread as it is?
  predicate Kept(m: Machine, th: Thread) {
    || th.suspendCount > 0 || th.userSuspend > 0 || th.gotPending
    || (!m.mayRun && th.state != Dying) || m.exited
    || th.state == Running || th.state == Dead
  }

  function Woken(th: Thread, cont: ContResult): Thread {
    if th.state == Dying then th.(state := Dead)
    else
      match cont
      case Resumed => th.(state := Running)
      case Refused => th
      case Zombie => th.(state := Dead)
  }

  // Resume a stopped or dying thread; the death of a zombie is reported.
  function Wake(s: Thawed, t: Tid, conts: map<Tid, ContResult>): (r: Thawed)
    requires t in s.m.threads
    ensures r.m.threads == s.m.threads[t := Woken(s.m.threads[t], ContOf(conts, t))]
  {
    var th := s.m.threads[t];
    var cont := ContOf(conts, t);
    var m1 := SetThread(s.m, t, Woken(th, cont));
    if th.state == Dying then s.(m := Released(m1, t))
    else
      match cont
      case Resumed => s.(m := Released(m1, t).(resumed := m1.resumed + [Resumption(t, th.childSignum, th.singleStep)]))
      case Refused => Thawed(m1, false)
      case Zombie => s.(m := Enqueue(m1, ThreadEvent(m1, THREAD_EXIT, t), InBack))
  }

  function ThawOne(s: Thawed, t: Tid, conts: map<Tid, ContResult>): (r: Thawed)
    requires t in s.m.threads
    ensures r.m.threads.Keys == s.m.threads.Keys
  {
    if s.m.threads[t].IsRunning() then s
    else
      var th := Relieved(s.m.threads[t]);
      var s1 := s.(m := SetThread(s.m, t, th));
      if Kept(s.m, th) then s1 else Wake(s1, t, conts)
  }

  ghost function ThawAll(s: Thawed, todo: set<Tid>, conts: map<Tid, ContResult>): (r: Thawed)
    requires todo <= s.m.threads.Keys
    ensures r.m.threads.Keys == s.m.threads.Keys
    decreases |todo|
  {
    if todo == {} then s
    else
      var t := Least(todo);
      ThawAll(ThawOne(s, t, conts), todo - {t}, conts)
  }

  ghost function Thaw(m: Machine, tid: Tid, exclude: bool, conts: map<Tid, ContResult>): Thawed {
    ThawAll(Thawed(m, true), SelectedSet(m, tid, exclude), conts)
  }

  ghost function ResumeApp(m: Machine, conts: map<Tid, ContResult>): Thawed {
    Thaw(m.(mayRun := !HasPendingEvents(m)), NO_THREAD, true, conts)
  }

  // ---------------------------------------------------------------- continue

  predicate KeepsSignal(ev: Event) {
    ev.eid in {THREAD_START, THREAD_EXIT, LIBRARY_LOAD, LIBRARY_UNLOAD} || (ev.eid == EXCEPTION && !ev.handled)
  }

  // The part of dbg_continue_after_event that deals with the event's thread.
  ghost function SettleThread(m: Machine, ev: Event, conts: map<Tid, ContResult>): Machine
    requires ev.tid in m.threads
  {
    var t := ev.tid;
    var th := m.threads[t].(childSignum := if KeepsSignal(ev) then m.threads[t].childSignum else 0);
    if th.state == Dying then
      Thaw(SetThread(m, t, th.(suspendCount := 0, userSuspend := 0)), t, false, conts).m
    else if th.state == Dead then DelThread(SetThread(m, t, th), t)
    else SetThread(m, t, th)
  }

  predicate MayContinue(m: Machine, ev: Event) {
    ev.tid in m.threads || ev.eid == THREAD_EXIT || m.exited
  }

  ghost function ContinueAfter(m: Machine, ev: Option<Event>, conts: map<Tid, ContResult>): Thawed {
    if ev.None? || !MayContinue(m, ev.value) then Thawed(m, false)
    else
      var m1 := if ev.value.tid in m.threads then SettleThread(m, ev.value, conts) else m;
      ResumeApp(m1.(inEvent := false), conts)
  }

  // ---------------------------------------------------------------- thread_db and library steps

  datatype SideStep =
    | DropLoad(name: Text)       // an unloaded library whose LIBRARY_LOAD is still queued
    | Library(ev: Event)         // a library event put in front of the queue
    | Birth(tid: Tid)            // TD_CREATE
    | Death(tid: Tid)            // TD_DEATH

  predicate IsModuleEvent(ev: Event, eid: word, name: Text) {
    ev.eid == eid && ev.payload.Module? && ev.payload.modinfo.name == name
  }

  // The result of del_pending_event on the queue.
  function DelPendingEvent(events: seq<Event>, eid: word, name: Text): seq<Event> {
    if events == [] then []
    else if IsModuleEvent(events[0], eid, name) then events[1..]
    else [events[0]] + DelPendingEvent(events[1..], eid, name)
  }

  datatype Stepped = Stepped(m: Machine, waits: seq<Report>)

  // The SIGSTOP of t is still to come.
  function Awaiting(m: Machine, t: Tid): (r: Machine)
    requires t in m.threads
    ensures r.threads.Keys == m.threads.Keys
  {
    SetThread(m, t, m.threads[t].(waitingSigstop := true))
  }

  // Consume the SIGSTOP of a thread that has just been attached or cloned.
  function AwaitStop(m: Machine, t: Tid, waits: seq<Report>): (s: Stepped)
    requires t in m.threads
    ensures |s.waits| <= |waits| && s.m.threads.Keys == m.threads.Keys
  {
    var r := NextReport(waits);
    if r.pid == t && r.status.StoppedBy? && r.status.sig == SIGSTOP then Stepped(Heard(m, r), Rest(waits))
    else if r.pid > 0 then Stepped(StorePending(Heard(Awaiting(m, t), r), r.pid, r.status), Rest(waits))
    else Stepped(Awaiting(m, t), Rest(waits))
  }

  function SideEffect(s: Stepped, step: SideStep): (r: Stepped)
    ensures s.m.threads.Keys <= r.m.threads.Keys
  {
    match step
    case DropLoad(name) => s.(m := s.m.(events := DelPendingEvent(s.m.events, LIBRARY_LOAD, name)))
    case Library(ev) => s.(m := Enqueue(s.m, ev, InFront))
    case Birth(t) =>
      if t in s.m.threads then s
      else AwaitStop(Enqueue(AddThread(s.m, t), ThreadEvent(s.m, THREAD_START, t), InFront), t, s.waits)
    case Death(t) => s.(m := DeadThread(s.m, t, Dying))
  }

  function SideEffects(s: Stepped, steps: seq<SideStep>): (r: Stepped)
    ensures s.m.threads.Keys <= r.m.threads.Keys
    decreases |steps|
  {
    if steps == [] then s else SideEffects(SideEffect(s, steps[0]), steps[1..])
  }

  // ---------------------------------------------------------------- new events

  function RemoveFirst(s: seq<Tid>, t: Tid): seq<Tid> {
    if s == [] then []
    else if s[0] == t then s[1..]
    else [s[0]] + RemoveFirst(s[1..], t)
  }

  // The stop of a new thread was reported before its parent's clone; it holds until the
  // thread is resumed.
  function ForgetSeen(m: Machine, t: Tid): Machine {
    Trusted(m, t in m.kernel.stopped).(seen := RemoveFirst(m.seen, t))
  }

  datatype Extended = Extended(m: Machine, waits: seq<Report>, prepared: bool)

  function HandleExtendedWait(m: Machine, r: Report, waits: seq<Report>): (x: Extended)
    ensures |x.waits| <= |waits|
  {
    if !(r.status.StoppedBy? && r.status.sig == SIGTRAP && r.status.clone.Some?) then Extended(m, waits, false)
    else
      var t := r.status.clone.value;
      var m1 := AddThread(m, t);
      var s :=
        if t in m1.seen then Stepped(ForgetSeen(m1, t), waits) else AwaitStop(m1, t, waits);
      Extended(Enqueue(s.m, ThreadEvent(s.m, THREAD_START, t), InFront), s.waits, true)
  }

  datatype Checked = Checked(m: Machine, waits: seq<Report>, found: Option<Report>, prepared: bool)

  ghost function CheckNewEvents(m: Machine, waits: seq<Report>, noTimeout: bool): Checked
    decreases |waits|, 0
  {
    var r0 := NextReport(waits);
    var w0 := Rest(waits);
    if r0.pid > 0 then TakeReport(m, r0, w0)
    else
      var (m1, pending) := RetrievePending(m);
      if pending.Some? then
        var x := HandleExtendedWait(m1, pending.value, w0);
        Checked(x.m, x.waits, pending, x.prepared)
      else if noTimeout || NextReport(w0).pid <= 0 then
        Checked(m1, if noTimeout then w0 else Rest(w0), None, false)
      else TakeReport(m1, NextReport(w0), Rest(w0))
  }

  ghost function TakeReport(m: Machine, r: Report, waits: seq<Report>): Checked
    decreases |waits|, 1
  {
    var x := HandleExtendedWait(Heard(m, r), r, waits);
    if r.pid in x.m.threads then Checked(x.m, x.waits, Some(r), x.prepared)
    else
      // a thread we do not know: keep its status unless it was deleted recently
      var m1 := if r.pid in x.m.deleted then Released(x.m, r.pid) else StorePending(x.m, r.pid, r.status);
      CheckNewEvents(m1, x.waits, true)
  }
}
