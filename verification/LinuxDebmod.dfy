/** The debugger module as the object it is: its methods update the thread table,
    the queue, the counter and the flags in place, and each one is proved to
    compute the corresponding step of the thread machine. */
module LinuxDebmod {
  import opened DebugEvents
  import opened LeastElement
  import opened ThreadMachine
  import opened ThreadOps

  // A zombie is first dying, with its exit queued, and then dead.
  lemma ZombieWoken(m: Machine, t: Tid)
    requires t in m.threads
    ensures var m1, dead := DeadThread(m, t, Dying), m.threads[t].(state := Dead);
            && t in m1.threads && m1.threads[t] == m.threads[t].(state := Dying)
            && m1.threads[t := dead] == m.threads[t := dead]
            && SetThread(m1, t, dead)
               == Enqueue(SetThread(m, t, dead), ThreadEvent(SetThread(m, t, dead), THREAD_EXIT, t), InBack)
  {
    assert m.threads[t := m.threads[t].(state := Dying)][t := m.threads[t].(state := Dead)]
        == m.threads[t := m.threads[t].(state := Dead)];
  }

  class Debmod {
    var threads: map<Tid, Thread>
    var events: seq<Event>
    var npending: int
    var mayRun: bool
    var requestedToSuspend: bool
    var inEvent: bool
    var exited: bool
    var deleted: seq<Tid>
    var seen: seq<Tid>
    var lastEvent: Event
    var process: Option<Tid>
    var exceptions: map<nat, ExceptionFlags>
    ghost var resumed: seq<Resumption>
    ghost var kernel: Kernel
    const arm: bool

    ghost function State(): Machine
      reads this
    {
      Machine(threads, events, npending, mayRun, requestedToSuspend, inEvent, exited, deleted, seen,
              lastEvent, process, exceptions, arm, resumed, kernel)
    }

    // process_handle
    function ProcessHandle(): (pid: Tid)
      reads this
      ensures pid == ProcessId(State())
    {
      if process.Some? then process.value else -1
    }

    constructor (arm: bool)
      ensures State() == Initial(arm)
    {
      threads, events, npending := map[], [], 0;
      mayRun, requestedToSuspend, inEvent, exited := false, false, false, false;
      deleted, seen, process, exceptions, resumed := [], [], None, map[], [];
      kernel := Kernel({}, true, []);
      lastEvent := Event(NO_EVENT, 0, NO_THREAD, 0, false, NoPayload);
      this.arm := arm;
    }

    // The kernel's side of a report, of a resumption, and what is relied on otherwise.
    ghost method Hear(r: Report)
      modifies this`kernel
      ensures State() == Heard(old(State()), r)
    {
      kernel := Heard(State(), r).kernel;
    }

    ghost method Release(t: Tid)
      modifies this`kernel
      ensures State() == Released(old(State()), t)
    {
      kernel := Released(State(), t).kernel;
    }

    ghost method Trust(ok: bool)
      modifies this`kernel
      ensures State() == Trusted(old(State()), ok)
    {
      kernel := Trusted(State(), ok).kernel;
    }

    // Assertions 30185 and 30057.
    ghost method CheckNoneLost(pid: Tid, status: WaitStatus)
      requires pid in threads
      modifies this`kernel
      ensures State() == NoneLost(old(State()), pid, status)
    {
      kernel := NoneLost(State(), pid, status).kernel;
    }

    ghost method CheckNotStopped(r: Report)
      requires r.pid in threads
      modifies this`kernel
      ensures State() == NotStopped(old(State()), r)
    {
      kernel := NotStopped(State(), r).kernel;
    }

    method EnqueueEvent(ev: Event, pos: QueuePos)
      modifies this
      ensures State() == Enqueue(old(State()), ev, pos)
    {
      if ev.eid != NO_EVENT {
        events := if pos == InFront then [ev] + events else events + [ev];
        mayRun := false;
      }
    }

    // del_pending_event: erase the first queued event of this kind for this module.
    method DelPendingEvent(eid: word, name: Text) returns (found: bool)
      modifies this
      ensures State() == old(State()).(events := ThreadMachine.DelPendingEvent(old(events), eid, name))
      ensures found <==> exists ev :: ev in old(events) && IsModuleEvent(ev, eid, name)
    {
      var i := 0;
      while i < |events|
        invariant 0 <= i <= |events| && State() == old(State())
        invariant forall ev :: ev in events[..i] ==> !IsModuleEvent(ev, eid, name)
        invariant ThreadMachine.DelPendingEvent(events, eid, name)
                  == events[..i] + ThreadMachine.DelPendingEvent(events[i..], eid, name)
      {
        ghost var tail := events[i..];
        assert tail[1..] == events[i + 1..];
        if IsModuleEvent(events[i], eid, name) {
          assert events[i] in events;
          events := events[..i] + events[i + 1..];
          return true;
        }
        assert events[..i] + ([events[i]] + ThreadMachine.DelPendingEvent(tail[1..], eid, name))
            == events[..i + 1] + ThreadMachine.DelPendingEvent(tail[1..], eid, name);
        i := i + 1;
      }
      assert events[..i] + [] == events;
      return false;
    }

    method AddThread(t: Tid)
      modifies this
      ensures State() == ThreadMachine.AddThread(old(State()), t)
    {
      if t !in threads { threads := threads[t := NEW_THREAD]; }
    }

    method DelThread(t: Tid)
      requires t in threads
      modifies this
      ensures State() == ThreadMachine.DelThread(old(State()), t)
    {
      if threads[t].gotPending { npending := npending - 1; }
      threads := threads - {t};
      if |deleted| >= 10 { deleted := deleted[1..]; }
      deleted := deleted + [t];
    }

    method DeadThread(t: Tid, state: ThreadState)
      modifies this
      ensures State() == ThreadMachine.DeadThread(old(State()), t, state)
    {
      if t in threads {
        threads := threads[t := threads[t].(state := state)];
        EnqueueEvent(Event(THREAD_EXIT, ProcessHandle(), t, BADADDR, true, ExitCode(0)), InBack);
        if state == Dead { DelThread(t); }
      }
    }

    method StorePendingSignal(pid: Tid, status: WaitStatus)
      modifies this
      ensures State() == StorePending(old(State()), pid, status)
    {
      if pid in threads {
        var ti := threads[pid];
        CheckNoneLost(pid, status);
        if ti.waitingSigstop && status.StoppedBy? && status.sig == SIGSTOP {
          threads := threads[pid := ti.(waitingSigstop := false, state := Stopped)];
        } else {
          threads := threads[pid := ti.(gotPending := true, pendingStatus := status)];
          npending := npending + 1;
        }
      } else if pid in deleted {
        Release(pid);
      } else if status.StoppedBy? {
        seen := seen + [pid];
      }
    }

    // The threads a scan of retrieve_pending_signal looks for: STEPs, breakpoints, any.
    ghost function Candidates(pass: nat): set<Tid>
      reads this
    {
      set t | t in threads && threads[t].Deliverable() && (pass == 0 ==> threads[t].singleStep)
              && (pass == 1 ==> IsBptStatus(arm, threads[t].pendingStatus))
    }

    // One scan of the threads by retrieve_pending_signal; pass is the priority class.
    method ScanPending(pass: nat) returns (p: Option<Tid>)
      ensures p == if Candidates(pass) == {} then None else Some(Least(Candidates(pass)))
    {
      p := None;
      var todo := threads.Keys;
      while todo != {}
        invariant Candidates(pass) <= todo <= threads.Keys
        decreases |todo|
      {
        var t := PickLeast(todo);
        todo := todo - {t};
        var ti := threads[t];
        if ti.userSuspend > 0 || ti.suspendCount > 0 { continue; }
        if ti.gotPending {
          if pass == 0 && !ti.singleStep { continue; }
          if pass == 1 && !IsBptStatus(arm, ti.pendingStatus) { continue; }
          assert t in Candidates(pass);
          return Some(t);
        }
      }
    }

    method RetrievePendingSignal() returns (r: Option<Report>)
      modifies this
      ensures (State(), r) == RetrievePending(old(State()))
    {
      r := None;
      if npending == 0 { return; }
      var p := None;
      if lastEvent.tid in threads && threads[lastEvent.tid].Deliverable() {
        p := Some(lastEvent.tid);
        assert lastEvent.tid in DeliverableSet(State());
      } else {
        assert lastEvent.tid !in DeliverableSet(State());
        // the scans for the higher priorities do not end the search
        var i := 0;
        while i < 3
          invariant 0 <= i <= 3 && State() == old(State())
          invariant i == 3 ==> p == if DeliverableSet(State()) == {} then None else Some(Least(DeliverableSet(State())))
        {
          p := ScanPending(i);
          assert Candidates(2) == DeliverableSet(State());
          i := i + 1;
        }
      }
      assert p == PickPending(State());
      if p.Some? {
        r := Some(Report(p.value, threads[p.value].pendingStatus));
        threads := threads[p.value := threads[p.value].(gotPending := false)];
        npending := npending - 1;
      }
    }

    // The body of the signalling loop of dbg_freeze_threads.
    method SendStop(t: Tid, queue0: set<Tid>, dead0: seq<Tid>, kill: KillResult)
        returns (queue: set<Tid>, dead: seq<Tid>)
      requires t in threads
      modifies this
      ensures forall kills | KillOf(kills, t) == kill ::
                Signalling(State(), queue, dead) == KillOne(Signalling(old(State()), queue0, dead0), t, kills)
      ensures queue <= queue0 + {t} && threads.Keys == old(threads.Keys)
    {
      queue, dead := queue0, dead0;
      var ti := threads[t];
      if ti.IsRunning() {
        if kill != Delivered {
          if kill == NoSuchThread { dead := dead + [t]; }
          assert threads[t := ti] == threads;
          return;
        }
        queue := queue + {t};
        ti := ti.(waitingSigstop := true);
      }
      threads := threads[t := ti.(suspendCount := ti.suspendCount + 1)];
    }

    // The signalling loop of dbg_freeze_threads.
    method SendStops(tid: Tid, exclude: bool, kills: map<Tid, KillResult>) returns (queue: set<Tid>, dead: seq<Tid>)
      modifies this
      ensures Signalling(State(), queue, dead)
              == KillAll(Signalling(old(State()), {}, []), SelectedSet(old(State()), tid, exclude), kills)
      ensures queue <= threads.Keys
    {
      hide KillOne;
      queue, dead := {}, [];
      var todo := SelectedKeys(tid, exclude);
      ghost var goal := KillAll(Signalling(State(), {}, []), todo, kills);
      while todo != {}
        invariant todo <= threads.Keys && queue <= threads.Keys
        invariant KillAll(Signalling(State(), queue, dead), todo, kills) == goal
        decreases |todo|
      {
        var t := PickLeast(todo);
        queue, dead := SendStop(t, queue, dead, KillOf(kills, t));
        todo := todo - {t};
      }
    }

    // The threads a freeze or a thaw applies to.
    method SelectedKeys(tid: Tid, exclude: bool) returns (s: set<Tid>)
      ensures s == SelectedSet(State(), tid, exclude)
    {
      s := set t | t in threads && (t == tid) != exclude;
    }

    // The waiting loop of dbg_freeze_threads; it stops early when the kernel has
    // nothing more to report.
    method AwaitStops(queue: set<Tid>, waits: seq<Report>) returns (left: set<Tid>, rest: seq<Report>)
      requires queue <= threads.Keys
      modifies this
      ensures Waiting(State(), left, rest) == WaitAll(Waiting(old(State()), queue, waits))
    {
      left, rest := queue, waits;
      ghost var goal := WaitAll(Waiting(State(), queue, waits));
      while left != {} && rest != []
        invariant left <= threads.Keys
        invariant WaitAll(Waiting(State(), left, rest)) == goal
        decreases |rest|
      {
        ghost var before := Waiting(State(), left, rest);
        var pid, status := rest[0].pid, rest[0].status;
        rest := rest[1..];
        if pid > 0 {
          Hear(Report(pid, status));
          if pid in left {
            if status.StoppedBy? && status.sig == SIGSTOP {
              threads := threads[pid := threads[pid].(waitingSigstop := false, state := Stopped)];
            } else {
              StorePendingSignal(pid, status);
            }
            left := left - {pid};
          } else {
            StorePendingSignal(pid, status);
          }
        }
        assert Waiting(State(), left, rest) == WaitOne(before);
      }
    }

    method FreezeThreads(tid: Tid, exclude: bool, env: Env) returns (rest: seq<Report>, done: bool)
      modifies this
      ensures Frozen(State(), rest, done) == Freeze(old(State()), tid, exclude, env)
    {
      var queue, dead := SendStops(tid, exclude, env.kills);
      var left;
      left, rest := AwaitStops(queue, env.waits);
      done := left == {};
      if done {
        ghost var goal := ReapAll(State(), dead);
        var i := 0;
        while i < |dead|
          invariant 0 <= i <= |dead| && ReapAll(State(), dead[i..]) == goal
        {
          DeadThread(dead[i], Dead);
          assert dead[i..][1..] == dead[i + 1..];
          i := i + 1;
        }
      } else {
        Trust(false);
      }
    }

    method ThawThreads(tid: Tid, exclude: bool, conts: map<Tid, ContResult>) returns (ok: bool)
      modifies this
      ensures Thawed(State(), ok) == Thaw(old(State()), tid, exclude, conts)
    {
      ok := true;
      var todo := SelectedKeys(tid, exclude);
      ghost var goal := ThawAll(Thawed(State(), true), todo, conts);
      while todo != {}
        invariant todo <= threads.Keys
        invariant ThawAll(Thawed(State(), ok), todo, conts) == goal
        decreases |todo|
      {
        var t := PickLeast(todo);
        ok := ThawThread(t, ok, conts);
        todo := todo - {t};
      }
    }

    // The body of the loop of dbg_thaw_threads.
    method ThawThread(t: Tid, ok0: bool, conts: map<Tid, ContResult>) returns (ok: bool)
      requires t in threads
      modifies this
      ensures Thawed(State(), ok) == ThawOne(Thawed(old(State()), ok0), t, conts)
    {
      hide Wake;
      hide ContOf;
      ok := ok0;
      var ti := threads[t];
      if ti.IsRunning() { return; }
      if ti.suspendCount > 0 {
        ti := ti.(suspendCount := ti.suspendCount - 1);
      }
      threads := threads[t := ti];
      assert ti == Relieved(old(threads)[t]);
      ghost var s1 := SetThread(old(State()), t, ti);
      assert State() == s1;
      if ti.suspendCount > 0 || ti.userSuspend > 0 || ti.gotPending { return; }
      if (!mayRun && ti.state != Dying) || exited { return; }
      if ti.state == Stopped || ti.state == Dying { ok := WakeThread(t, ok, ContOf(conts, t)); }
    }

    // The resumption itself: PTRACE_CONT or PTRACE_SINGLESTEP, and its failures.
    method WakeThread(t: Tid, ok0: bool, cont: ContResult) returns (ok: bool)
      requires t in threads && threads[t].state in {Stopped, Dying}
      modifies this
      ensures forall conts | ContOf(conts, t) == cont ::
                Thawed(State(), ok) == Wake(Thawed(old(State()), ok0), t, conts)
    {
      hide Released;
      hide ThreadMachine.DeadThread;
      hide Enqueue;
      ok := ok0;
      var ti := threads[t];
      if ti.state != Dying && cont == Zombie { ZombieWoken(State(), t); }
      if ti.state != Dying && cont == Refused {
        assert threads[t := ti] == threads;
        return false;
      }
      if ti.state != Dying && cont == Zombie {
        DeadThread(t, Dying);
      }
      if threads[t].state == Dying {
        threads := threads[t := threads[t].(state := Dead)];
        if ti.state == Dying { Release(t); }
      } else {
        threads := threads[t := ti.(state := Running)];
        Release(t);
        resumed := resumed + [Resumption(t, ti.childSignum, ti.singleStep)];
      }
      assert threads == old(threads)[t := Woken(ti, cont)];
    }

    method ResumeApp(conts: map<Tid, ContResult>) returns (ok: bool)
      modifies this
      ensures Thawed(State(), ok) == ThreadMachine.ResumeApp(old(State()), conts)
    {
      mayRun := !(events != [] || exists t :: t in threads && threads[t].Deliverable());
      ok := ThawThreads(NO_THREAD, true, conts);
    }

    // What dbg_continue_after_event does to the thread of the event.
    method SettleThread(event: Event, conts: map<Tid, ContResult>)
      requires event.tid in threads
      modifies this
      ensures State() == ThreadMachine.SettleThread(old(State()), event, conts)
    {
      var t := event.tid;
      if !KeepsSignal(event) {
        threads := threads[t := threads[t].(childSignum := 0)];
      }
      ghost var th := old(threads)[t].(childSignum := if KeepsSignal(event) then old(threads)[t].childSignum else 0);
      assert threads == old(threads)[t := th];
      if threads[t].state == Dying {
        threads := threads[t := threads[t].(suspendCount := 0, userSuspend := 0)];
        assert threads == old(threads)[t := th.(suspendCount := 0, userSuspend := 0)];
        var _ := ThawThreads(t, false, conts);
      } else if threads[t].state == Dead {
        DelThread(t);
      }
    }

    method ContinueAfterEvent(ev: Option<Event>, conts: map<Tid, ContResult>) returns (ok: bool)
      modifies this
      ensures Thawed(State(), ok) == ContinueAfter(old(State()), ev, conts)
    {
      if ev == None { return false; }
      var event := ev.value;
      var t := event.tid;
      if t !in threads && event.eid != THREAD_EXIT && !exited { return false; }
      if t in threads { SettleThread(event, conts); }
      inEvent := false;
      ok := ResumeApp(conts);
    }

    // Consume the SIGSTOP of a thread that has just been attached or cloned.
    method AwaitStop(t: Tid, waits: seq<Report>) returns (rest: seq<Report>)
      requires t in threads
      modifies this
      ensures Stepped(State(), rest) == ThreadMachine.AwaitStop(old(State()), t, waits)
    {
      var r := NextReport(waits);
      rest := Rest(waits);
      if r.pid == t && r.status.StoppedBy? && r.status.sig == SIGSTOP {
        Hear(r);
      } else {
        threads := threads[t := threads[t].(waitingSigstop := true)];
        if r.pid > 0 {
          Hear(r);
          StorePendingSignal(r.pid, r.status);
        }
      }
    }

    method HandleExtendedWait(r: Report, waits: seq<Report>) returns (rest: seq<Report>, prepared: bool)
      modifies this
      ensures Extended(State(), rest, prepared) == ThreadMachine.HandleExtendedWait(old(State()), r, waits)
    {
      rest, prepared := waits, false;
      if !r.status.StoppedBy? || r.status.sig != SIGTRAP || r.status.clone.None? { return; }
      var t := r.status.clone.value;
      AddThread(t);
      if t in seen {
        Trust(t in kernel.stopped);
        seen := RemoveFirst(seen, t);
      } else {
        rest := AwaitStop(t, waits);
      }
      EnqueueEvent(Event(THREAD_START, ProcessHandle(), t, BADADDR, true, NoPayload), InFront);
      prepared := true;
    }

    method CheckForNewEvents(waits: seq<Report>, noTimeout: bool)
      returns (rest: seq<Report>, found: Option<Report>, prepared: bool)
      modifies this
      ensures Checked(State(), rest, found, prepared) == CheckNewEvents(old(State()), waits, noTimeout)
    {
      hide Heard;
      hide Released;
      hide StorePending;
      hide ThreadMachine.HandleExtendedWait;
      hide RetrievePending;
      rest := waits;
      var quick := noTimeout;
      ghost var goal := CheckNewEvents(State(), waits, noTimeout);
      while true
        invariant CheckNewEvents(State(), rest, quick) == goal
        decreases |rest|
      {
        var r := NextReport(rest);
        rest := Rest(rest);
        if r.pid <= 0 {
          var pending := RetrievePendingSignal();
          if pending.Some? {
            rest, prepared := HandleExtendedWait(pending.value, rest);
            return rest, pending, prepared;
          }
          if quick { return rest, None, false; }
          r := NextReport(rest);
          if r.pid <= 0 { return Rest(rest), None, false; }
          rest := Rest(rest);
        }
        assert TakeReport(State(), r, rest) == goal;
        ghost var before := State();
        ghost var w := rest;
        Hear(r);
        rest, prepared := HandleExtendedWait(r, rest);
        if r.pid in threads { return rest, Some(r), prepared; }
        if r.pid in deleted {
          Release(r.pid);
        } else {
          StorePendingSignal(r.pid, r.status);
        }
        quick := true;
      }
    }

    // SideStep by SideStep: thread_db messages and library changes.
    method TakeSideSteps(steps: seq<SideStep>, waits: seq<Report>) returns (rest: seq<Report>)
      modifies this
      ensures Stepped(State(), rest) == SideEffects(Stepped(old(State()), waits), steps)
    {
      hide SideEffect;
      rest := waits;
      ghost var goal := SideEffects(Stepped(State(), waits), steps);
      var i := 0;
      while i < |steps|
        invariant 0 <= i <= |steps|
        invariant SideEffects(Stepped(State(), rest), steps[i..]) == goal
      {
        rest := TakeSideStep(steps[i], rest);
        assert steps[i..][1..] == steps[i + 1..];
        i := i + 1;
      }
    }

    method TakeSideStep(step: SideStep, waits: seq<Report>) returns (rest: seq<Report>)
      modifies this
      ensures Stepped(State(), rest) == SideEffect(Stepped(old(State()), waits), step)
    {
      hide ThreadMachine.DeadThread;
      hide ThreadMachine.AwaitStop;
      hide ThreadMachine.DelPendingEvent;
      rest := waits;
      match step {
        case DropLoad(name) => var _ := DelPendingEvent(LIBRARY_LOAD, name);
        case Library(ev) => EnqueueEvent(ev, InFront);
        case Birth(t) =>
          if t !in threads {
            var ev := Event(THREAD_START, ProcessHandle(), t, BADADDR, true, NoPayload);
            AddThread(t);
            EnqueueEvent(ev, InFront);
            rest := AwaitStop(t, rest);
          }
        case Death(t) => DeadThread(t, Dying);
      }
    }

    // The RESUME label of get_debug_event; None means silently resumed.
    method Silence(ev: Event, conts: map<Tid, ContResult>) returns (r: Option<Event>)
      modifies this
      ensures Got(State(), r) == Silently(old(State()), ev, conts)
    {
      if !requestedToSuspend && !inEvent {
        var _ := ResumeApp(conts);
        return None;
      }
      return Some(ev.(eid := PROCESS_SUSPEND));
    }

    // The EVENT_READY label.
    method MakeReady(t: Tid, ev: Event) returns (r: Option<Event>)
      modifies this
      ensures Got(State(), r) == Ready(old(State()), t, ev)
    {
      if t in threads { threads := threads[t := threads[t].(singleStep := false)]; }
      lastEvent := ev;
      r := Some(ev);
    }

    method DeliverStop(t: Tid, code: nat, suspend: bool, ev: Event, conts: map<Tid, ContResult>)
        returns (r: Option<Event>)
      requires t in threads
      modifies this
      ensures Got(State(), r) == Deliver(old(State()), t, code, suspend, ev, conts)
    {
      threads := threads[t := threads[t].(childSignum := code)];
      if !suspend && ev.eid == EXCEPTION {
        r := Silence(ev, conts);
      } else {
        r := MakeReady(t, ev);
      }
    }

    // A signal that comes from a breakpoint at ea.
    method HandleBpt(t: Tid, ea: word, suspend: bool, code: nat, ev0: Event, rd: Round, waits: seq<Report>)
      returns (r: Option<Event>)
      requires t in threads
      modifies this
      ensures var s := SideEffects(Stepped(old(State()), waits), rd.cause.steps);
              Got(State(), r) == BptEvent(old(State()), s.m, t, ea, suspend, code, ev0, rd)
    {
      var ev := ev0;
      match rd.cause {
        case LibraryBpt(returned, steps) =>
          if !returned { return Some(ev); }
          var n := |events|;
          var _ := TakeSideSteps(steps, waits);
          if |events| == n {
            r := Silence(ev, rd.env.conts);
            return;
          }
          ev := ev.(eid := NO_EVENT);
          r := DeliverStop(t, 0, suspend, ev, rd.env.conts);
        case ThreadBpt(returned, steps) =>
          var n := |events|;
          var _ := TakeSideSteps(steps, waits);
          if !returned { return Some(ev); }
          if |events| == n {
            r := Silence(ev, rd.env.conts);
            return;
          }
          ev := ev.(eid := NO_EVENT);
          r := DeliverStop(t, 0, suspend, ev, rd.env.conts);
        case UserBpt(steps, kind) =>
          var _ := TakeSideSteps(steps, waits);
          var signum := 0;
          match kind {
            case Hardware(hea) => ev := ev.(eid := BREAKPOINT, payload := Bpt(hea, BADADDR));
            case Software => ev := ev.(eid := BREAKPOINT, ea := ea, payload := Bpt(BADADDR, BADADDR));
            case Unknown =>
              if threads[t].singleStep {
                ev := ev.(eid := STEP);
              } else {
                signum := code;
              }
          }
          r := DeliverStop(t, signum, suspend, ev, rd.env.conts);
      }
    }

    method HandleStop(t: Tid, sig: nat, rd: Round, waits: seq<Report>, base: Event) returns (r: Option<Event>)
      requires t in threads
      modifies this
      ensures Got(State(), r) == StopEvent(old(State()), t, sig, rd, waits, base)
    {
      var ev := base.(eid := EXCEPTION, payload := Exc(ExceptionInfo(sig % TWO_32, true, BADADDR, [])));
      if sig == SIGSTOP && threads[t].waitingSigstop {
        threads := threads[t := threads[t].(waitingSigstop := false)];
        r := Silence(ev, rd.env.conts);
        return;
      }
      var suspend, masked := true, false;
      if sig in exceptions {
        suspend := exceptions[sig].breakOn;
        masked := exceptions[sig].handle;
      }
      var ea := BptAddress(arm, sig, base.ea);
      if ea != BADADDR {
        r := HandleBpt(t, ea, suspend, if masked then 0 else sig, ev, rd, waits);
      } else {
        r := DeliverStop(t, if !suspend && masked then 0 else sig, suspend, ev, rd.env.conts);
      }
    }

    method HandleExit(t: Tid, status: WaitStatus, base: Event) returns (r: Option<Event>)
      requires t in threads
      modifies this
      ensures Got(State(), r) == ExitEvent(old(State()), t, status, base)
    {
      var code := match status case Signaled(sig) => sig case Exited(c) => c case _ => 0;
      var ev := base.(payload := ExitCode(code));
      if |threads| <= 1 || Some(t) == process {
        ev := ev.(eid := PROCESS_EXIT);
        exited := true;
      } else {
        ev := ev.(eid := NO_EVENT);
        DeadThread(t, Dead);
      }
      r := MakeReady(t, ev);
    }

    method HaltThreads(t: Tid, env: Env) returns (rest: seq<Report>, done: bool)
      requires t in threads
      modifies this
      ensures Frozen(State(), rest, done) == Halt(old(State()), t, env)
    {
      hide Freeze;
      threads := threads[t := threads[t].(state := Stopped)];
      rest, done := FreezeThreads(NO_THREAD, true, env);
      if done { mayRun := false; }
    }

    method GetDebugEvent(rd: Round) returns (r: Option<Event>)
      modifies this
      ensures Got(State(), r) == ThreadOps.GetDebugEvent(old(State()), rd)
    {
      hide CheckNewEvents;
      hide NotStopped;
      hide Halt;
      hide PrepareEvent;
      var rest, found, prepared := CheckForNewEvents(rd.env.waits, rd.noTimeout);
      if found == None || found.value.pid !in threads { return None; }
      CheckNotStopped(found.value);
      var done;
      rest, done := HaltThreads(found.value.pid, rd.env.(waits := rest));
      if !done { return None; }
      r := MakeEvent(found.value, prepared, rd, rest);
    }

    // The event of a stopped thread, once all threads are frozen.
    method MakeEvent(found: Report, prepared: bool, rd: Round, rest: seq<Report>) returns (r: Option<Event>)
      requires found.pid in threads
      modifies this
      ensures Got(State(), r) == PrepareEvent(old(State()), found, prepared, rd, rest)
    {
      var t, status := found.pid, found.status;
      var base := Event(NO_EVENT, ProcessHandle(), t, if exited then BADADDR else rd.ip, false, NoPayload);
      if prepared {
        r := MakeReady(t, Event(NO_EVENT, 0, NO_THREAD, 0, false, NoPayload));
      } else if status.StoppedBy? {
        r := HandleStop(t, status.sig, rd, rest, base);
      } else {
        r := HandleExit(t, status, base);
      }
    }

    // dbg_get_debug_event; it gives up when the environments run out.
    method FetchEvent(rounds: seq<Round>) returns (r: Option<Event>)
      modifies this
      ensures Got(State(), r) == ThreadOps.FetchEvent(old(State()), rounds)
    {
      ghost var goal := ThreadOps.FetchEvent(State(), rounds);
      var i := 0;
      while true
        invariant 0 <= i <= |rounds|
        invariant ThreadOps.FetchEvent(State(), rounds[i..]) == goal
        decreases |rounds| - i
      {
        if events != [] {
          r := Some(events[0]);
          events, inEvent, requestedToSuspend := events[1..], true, false;
          return;
        }
        if i == |rounds| { return None; }
        var ev := GetDebugEvent(rounds[i]);
        if ev == None { return None; }
        EnqueueEvent(ev.value, InBack);
        assert rounds[i..][1..] == rounds[i + 1..];
        i := i + 1;
      }
    }

    // suspend_all_threads and resume_all_threads around an access to the memory.
    method BracketMemory(env: Env)
      modifies this
      ensures State() == AccessMemory(old(State()), env)
    {
      if exited || process == None { return; }
      var _, done := FreezeThreads(NO_THREAD, true, env);
      if done { var _ := ThawThreads(NO_THREAD, true, env.conts); }
    }

    method ThreadSuspend(t: Tid, env: Env)
      modifies this
      ensures State() == SuspendThread(old(State()), t, env)
    {
      if t !in threads { return; }
      var _, done := FreezeThreads(t, false, env);
      if done && t in threads {
        threads := threads[t := threads[t].(userSuspend := threads[t].userSuspend + 1)];
      }
    }

    method ThreadContinue(t: Tid, conts: map<Tid, ContResult>)
      modifies this
      ensures State() == ContinueThread(old(State()), t, conts)
    {
      if t !in threads { return; }
      var ti := threads[t];
      if ti.userSuspend > 0 {
        threads := threads[t := ti.(userSuspend := ti.userSuspend - 1)];
        if threads[t].userSuspend > 0 { return; }
      } else {
        assert threads[t := ti] == threads;
      }
      assert threads == old(threads)[t := ti.(userSuspend := 0)];
      var _ := ThawThreads(t, false, conts);
    }

    method PrepareToPause()
      modifies this
      ensures State() == PauseProcess(old(State()))
    {
      if events == [] && threads.Keys != {} {
        var t := PickLeast(threads.Keys);
        threads := threads[t := threads[t].(waitingSigstop := true)];
      }
      mayRun, requestedToSuspend := false, true;
    }

    method SlayThread(t: Tid, ok0: bool, failed: set<Tid>) returns (ok: bool)
      requires t in threads
      modifies this
      ensures Thawed(State(), ok) == SlayOne(Thawed(old(State()), ok0), t, failed)
    {
      ok := ok0;
      if t in failed { ok := false; }
      if ok {
        threads := threads[t := threads[t].(state := Running, suspendCount := 0)];
        Release(t);
      }
    }

    method Kill(env: Env, failed: set<Tid>)
      modifies this
      ensures State() == ExitProcess(old(State()), env, failed)
    {
      hide Freeze;
      hide SlayOne;
      var _, done := FreezeThreads(NO_THREAD, true, env);
      if !done { return; }
      var ok, todo := true, threads.Keys;
      ghost var goal := SlayAll(Thawed(State(), true), todo, failed);
      while todo != {}
        invariant todo <= threads.Keys
        invariant SlayAll(Thawed(State(), ok), todo, failed) == goal
        decreases |todo|
      {
        var t := PickLeast(todo);
        ok := SlayThread(t, ok, failed);
        todo := todo - {t};
      }
      if ok { process := None; }
      mayRun, exited := true, true;
    }
  }
}
