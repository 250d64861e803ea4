/** What every run of requests keeps: a queued or undelivered event holds the
    application, a running thread has no freeze outstanding, and the counter of
    pending signals covers the threads that have one. */
module ThreadSafety {
  import opened DebugEvents
  import opened LeastElement
  import opened ThreadMachine
  import opened ThreadOps

  ghost function PendingSet(threads: map<Tid, Thread>): set<Tid> {
    set t | t in threads && threads[t].gotPending
  }

  ghost predicate EventHoldsProcess(m: Machine) {
    !m.exited && (m.events != [] || m.inEvent) ==> !m.mayRun
  }

  ghost predicate RunningIsUnfrozen(m: Machine) {
    forall t :: t in m.threads && m.threads[t].IsRunning() ==> m.threads[t].suspendCount == 0
  }

  ghost predicate CounterCovers(m: Machine) {
    m.npending >= |PendingSet(m.threads)|
  }

  ghost predicate Inv(m: Machine) {
    EventHoldsProcess(m) && RunningIsUnfrozen(m) && CounterCovers(m)
  }

  // Steps that neither resume a thread nor let the application run.
  ghost predicate Quiet(m: Machine, m': Machine) {
    && m'.resumed == m.resumed
    && m'.inEvent == m.inEvent
    && m'.exited == m.exited
    && m'.process == m.process
    && m'.requestedToSuspend == m.requestedToSuspend
    && (m'.mayRun ==> m.mayRun)
  }

  function Bit(b: bool): nat {
    if b then 1 else 0
  }

  // ---------------------------------------------------------------- single threads

  lemma PendingUpdate(threads: map<Tid, Thread>, t: Tid, th: Thread)
    ensures |PendingSet(threads[t := th])|
            == |PendingSet(threads)| - Bit(t in threads && threads[t].gotPending) + Bit(th.gotPending)
  {
    var rest := PendingSet(threads) - {t};
    assert PendingSet(threads[t := th]) == if th.gotPending then rest + {t} else rest;
    assert PendingSet(threads) == if t in threads && threads[t].gotPending then rest + {t} else rest;
  }

  lemma SetThreadInv(m: Machine, t: Tid, th: Thread)
    requires Inv(m)
    requires th.IsRunning() ==> th.suspendCount == 0
    requires th.gotPending ==> t in m.threads && m.threads[t].gotPending
    ensures Inv(SetThread(m, t, th)) && Quiet(m, SetThread(m, t, th))
  {
    PendingUpdate(m.threads, t, th);
  }

  lemma DelThreadInv(m: Machine, t: Tid)
    requires Inv(m) && t in m.threads
    ensures Inv(DelThread(m, t)) && Quiet(m, DelThread(m, t))
  {
    var rest := PendingSet(m.threads) - {t};
    assert PendingSet(m.threads - {t}) == rest;
    assert PendingSet(m.threads) == if m.threads[t].gotPending then rest + {t} else rest;
  }

  lemma EnqueueInv(m: Machine, ev: Event, pos: QueuePos)
    requires Inv(m)
    ensures Inv(Enqueue(m, ev, pos)) && Quiet(m, Enqueue(m, ev, pos))
  {
  }

  lemma DeadThreadInv(m: Machine, t: Tid, state: ThreadState)
    requires Inv(m) && state != Running
    ensures Inv(DeadThread(m, t, state)) && Quiet(m, DeadThread(m, t, state))
  {
    if t in m.threads {
      var m0 := SetThread(m, t, m.threads[t].(state := state));
      SetThreadInv(m, t, m.threads[t].(state := state));
      var m1 := Enqueue(m0, ThreadEvent(m, THREAD_EXIT, t), InBack);
      EnqueueInv(m0, ThreadEvent(m, THREAD_EXIT, t), InBack);
      if state.Dead? { DelThreadInv(m1, t); }
    }
  }

  lemma MarkPendingInv(m: Machine, t: Tid, status: WaitStatus)
    requires Inv(m) && t in m.threads
    ensures var m' := SetThread(m, t, m.threads[t].(gotPending := true,
              pendingStatus := status)).(npending := m.npending + 1);
            Inv(m') && Quiet(m, m')
  {
    PendingUpdate(m.threads, t, m.threads[t].(gotPending := true, pendingStatus := status));
  }

  lemma SeenInv(m: Machine, seen: seq<Tid>)
    requires Inv(m)
    ensures Inv(m.(seen := seen)) && Quiet(m, m.(seen := seen))
  {
  }

  lemma KernelInv(m: Machine, k: Kernel)
    requires Inv(m)
    ensures Inv(m.(kernel := k)) && Quiet(m, m.(kernel := k))
  {
  }

  lemma ResumedInv(m: Machine, log: seq<Resumption>)
    requires Inv(m)
    ensures Inv(m.(resumed := log))
  {
  }

  lemma StorePendingInv(m: Machine, pid: Tid, status: WaitStatus)
    requires Inv(m)
    ensures Inv(StorePending(m, pid, status)) && Quiet(m, StorePending(m, pid, status))
  {
    hide Inv;
    hide NoneLost;
    hide Released;
    if pid in m.threads {
      StoreKnownInv(m, pid, status);
    } else {
      KernelInv(m, Released(m, pid).kernel);
      SeenInv(m, m.seen + [pid]);
    }
  }

  lemma StoreKnownInv(m: Machine, pid: Tid, status: WaitStatus)
    requires Inv(m) && pid in m.threads
    ensures Inv(StorePending(m, pid, status)) && Quiet(m, StorePending(m, pid, status))
  {
    hide Inv;
    hide NoneLost;
    var m1 := NoneLost(m, pid, status);
    KernelInv(m, m1.kernel);
    if IsAwaitedStop(m.threads[pid], status) {
      SetThreadInv(m1, pid, m.threads[pid].(waitingSigstop := false, state := Stopped));
    } else {
      MarkPendingInv(m1, pid, status);
    }
  }

  lemma DeliverableCounted(m: Machine)
    requires CounterCovers(m) && DeliverableSet(m) != {}
    ensures m.npending > 0
  {
    var t := Least(DeliverableSet(m));
    assert t in PendingSet(m.threads);
  }

  /** retrieve_pending_signal succeeds exactly when some thread has a pending
      status and neither suspend count, as has_pending_events tests it. */
  lemma RetrieveSucceedsIff(m: Machine)
    requires CounterCovers(m)
    ensures RetrievePending(m).1.Some? <==> exists t :: t in m.threads && m.threads[t].Deliverable()
    ensures m.events == [] ==> (RetrievePending(m).1.Some? <==> HasPendingEvents(m))
  {
    if DeliverableSet(m) != {} {
      DeliverableCounted(m);
      var t := Least(DeliverableSet(m));
      assert t in m.threads && m.threads[t].Deliverable();
    } else {
      assert forall t :: t in m.threads && m.threads[t].Deliverable() ==> t in DeliverableSet(m);
    }
  }

  // When is the delivered thread one of cls?
  lemma PickedFromIff(m: Machine, cls: set<Tid>)
    ensures var p, d := PickPending(m), DeliverableSet(m);
            p.Some? && p.value in cls <==>
            && m.npending != 0
            && if m.lastEvent.tid in d then m.lastEvent.tid in cls
               else exists t :: t in d && t in cls && forall u :: u in d && u < t ==> u in cls
  {
    var d := DeliverableSet(m);
    if d != {} {
      var l := Least(d);
      assert l in d && forall u :: u in d && u < l ==> u in cls;
    }
  }

  // Deliverable threads that single-step, and that stopped at a breakpoint.
  ghost function SteppingSet(m: Machine): set<Tid> {
    set t | t in DeliverableSet(m) && m.threads[t].singleStep
  }

  ghost function TrappedSet(m: Machine): set<Tid> {
    set t | t in DeliverableSet(m) && IsBptStatus(m.arm, m.threads[t].pendingStatus)
  }

  /** The priorities STEP, SIGTRAP, others are not kept: unless the thread of the last event
      is chosen, a stepping thread is delivered exactly when some deliverable stepping
      thread has no other deliverable thread before it, and so for breakpoint stops. */
  lemma PriorityIff(m: Machine)
    requires m.npending != 0 && m.lastEvent.tid !in DeliverableSet(m)
    ensures var p, d, stepping, trapped := PickPending(m), DeliverableSet(m), SteppingSet(m), TrappedSet(m);
            && (p.Some? && p.value in stepping <==>
                  exists t :: t in stepping && forall u :: u in d - stepping ==> t < u)
            && (p.Some? && p.value in trapped <==>
                  exists t :: t in trapped && forall u :: u in d - trapped ==> t < u)
  {
    ClassIff(m, SteppingSet(m));
    ClassIff(m, TrappedSet(m));
  }

  lemma ClassIff(m: Machine, cls: set<Tid>)
    requires m.npending != 0 && m.lastEvent.tid !in DeliverableSet(m) && cls <= DeliverableSet(m)
    ensures var p := PickPending(m);
            p.Some? && p.value in cls <==> exists t :: t in cls && forall u :: u in DeliverableSet(m) - cls ==> t < u
  {
    PickedFromIff(m, cls);
    var d := DeliverableSet(m);
    forall t | t in cls
      ensures (forall u :: u in d && u < t ==> u in cls) <==> forall u :: u in d - cls ==> t < u
    {
      assert forall u :: u in d - cls <==> u in d && u !in cls;
    }
  }

  /** For instance a thread that only has a pending status is preferred to a later one that
      was single-stepped. */
  lemma StepPassedOver(m: Machine, status: WaitStatus)
    requires m.npending != 0 && m.lastEvent.tid == NO_THREAD
    requires var th := NEW_THREAD.(gotPending := true, pendingStatus := status);
             m.threads == map[1 := th, 2 := th.(singleStep := true)]
    ensures PickPending(m) == Some(1) && SteppingSet(m) == {2}
  {
    assert DeliverableSet(m) == {1, 2};
  }

  lemma RetrievePendingInv(m: Machine)
    requires Inv(m)
    ensures Inv(RetrievePending(m).0) && Quiet(m, RetrievePending(m).0)
    ensures RetrievePending(m).0.npending >= 0
    ensures RetrievePending(m).0.threads.Keys == m.threads.Keys
    ensures RetrievePending(m).1.Some? ==> RetrievePending(m).1.value.pid in m.threads
  {
    var p := PickPending(m);
    if p.Some? {
      var th := m.threads[p.value];
      assert th.Deliverable();
      PendingUpdate(m.threads, p.value, th.(gotPending := false));
    }
  }

  // ---------------------------------------------------------------- freeze and thaw

  lemma KillOneInv(s: Signalling, t: Tid, kills: map<Tid, KillResult>)
    requires Inv(s.m) && t in s.m.threads
    ensures Inv(KillOne(s, t, kills).m) && Quiet(s.m, KillOne(s, t, kills).m)
  {
    SetThreadInv(s.m, t, Signalled(s.m.threads[t], KillOf(kills, t)));
  }

  lemma KillAllInv(s: Signalling, todo: set<Tid>, kills: map<Tid, KillResult>)
    requires Inv(s.m) && todo <= s.m.threads.Keys
    ensures var m' := KillAll(s, todo, kills).m; Inv(m') && Quiet(s.m, m')
    decreases |todo|
  {
    hide Inv;
    if todo != {} {
      var t := Least(todo);
      KillOneInv(s, t, kills);
      KillAllInv(KillOne(s, t, kills), todo - {t}, kills);
    }
  }

  lemma WaitAllInv(w: Waiting)
    requires Inv(w.m) && w.queue <= w.m.threads.Keys
    ensures Inv(WaitAll(w).m) && Quiet(w.m, WaitAll(w).m)
    decreases |w.waits|
  {
    hide Inv;
    hide StorePending;
    hide Heard;
    if w.queue != {} && w.waits != [] {
      var Report(pid, status) := w.waits[0];
      var m := Heard(w.m, w.waits[0]);
      KernelInv(w.m, m.kernel);
      StorePendingInv(m, pid, status);
      if pid in w.queue {
        SetThreadInv(m, pid, m.threads[pid].(waitingSigstop := false, state := Stopped));
      }
      WaitAllInv(WaitOne(w));
    }
  }

  lemma ReapAllInv(m: Machine, dead: seq<Tid>)
    requires Inv(m)
    ensures Inv(ReapAll(m, dead)) && Quiet(m, ReapAll(m, dead))
    decreases |dead|
  {
    if dead != [] {
      DeadThreadInv(m, dead[0], Dead);
      ReapAllInv(DeadThread(m, dead[0], Dead), dead[1..]);
    }
  }

  lemma FreezeInv(m: Machine, tid: Tid, exclude: bool, env: Env)
    requires Inv(m)
    ensures var m' := Freeze(m, tid, exclude, env).m; Inv(m') && Quiet(m, m')
  {
    hide Inv;
    hide KillAll;
    hide WaitAll;
    hide ReapAll;
    var s0 := Signalling(m, {}, []);
    KillAllInv(s0, SelectedSet(m, tid, exclude), env.kills);
    KillAllQueue(s0, SelectedSet(m, tid, exclude), env.kills);
    var s := Signal(m, tid, exclude, env);
    var w := Waiting(s.m, s.queue, env.waits);
    WaitAllInv(w);
    KernelInv(WaitAll(w).m, Trusted(WaitAll(w).m, false).kernel);
    ReapAllInv(WaitAll(w).m, s.dead);
  }

  // Thawing may resume threads, but only while the application may run.
  ghost predicate Thawing(m: Machine, m': Machine) {
    && m'.inEvent == m.inEvent
    && m'.exited == m.exited
    && m'.process == m.process
    && m'.requestedToSuspend == m.requestedToSuspend
    && (m'.mayRun ==> m.mayRun)
    && (!m.mayRun || m.exited ==> m'.resumed == m.resumed)
  }

  lemma WakeInv(s: Thawed, t: Tid, conts: map<Tid, ContResult>)
    requires Inv(s.m) && t in s.m.threads && !Kept(s.m, s.m.threads[t])
    ensures Inv(Wake(s, t, conts).m) && Thawing(s.m, Wake(s, t, conts).m)
  {
    hide Inv;
    hide Released;
    hide ThreadEvent;
    hide Enqueue;
    NotFrozen(s.m, t);
    var m1 := SetThread(s.m, t, Woken(s.m.threads[t], ContOf(conts, t)));
    SetThreadInv(s.m, t, Woken(s.m.threads[t], ContOf(conts, t)));
    KernelInv(m1, Released(m1, t).kernel);
    ResumedInv(Released(m1, t), Wake(s, t, conts).m.resumed);
    EnqueueInv(m1, ThreadEvent(m1, THREAD_EXIT, t), InBack);
  }

  lemma ThawOneInv(s: Thawed, t: Tid, conts: map<Tid, ContResult>)
    requires Inv(s.m) && t in s.m.threads
    ensures Inv(ThawOne(s, t, conts).m) && Thawing(s.m, ThawOne(s, t, conts).m)
  {
    var th := Relieved(s.m.threads[t]);
    SetThreadInv(s.m, t, th);
    if !s.m.threads[t].IsRunning() && !Kept(s.m, th) {
      WakeInv(s.(m := SetThread(s.m, t, th)), t, conts);
    }
  }

  lemma ThawAllInv(s: Thawed, todo: set<Tid>, conts: map<Tid, ContResult>)
    requires Inv(s.m) && todo <= s.m.threads.Keys
    ensures Inv(ThawAll(s, todo, conts).m) && Thawing(s.m, ThawAll(s, todo, conts).m)
    decreases |todo|
  {
    hide Inv;
    hide ThawOne;
    if todo != {} {
      var t := Least(todo);
      ThawOneInv(s, t, conts);
      ThawAllInv(ThawOne(s, t, conts), todo - {t}, conts);
    }
  }

  lemma ThawInv(m: Machine, tid: Tid, exclude: bool, conts: map<Tid, ContResult>)
    requires Inv(m)
    ensures Inv(Thaw(m, tid, exclude, conts).m) && Thawing(m, Thaw(m, tid, exclude, conts).m)
  {
    ThawAllInv(Thawed(m, true), SelectedSet(m, tid, exclude), conts);
  }

  lemma ResumeAppInv(m: Machine, conts: map<Tid, ContResult>)
    requires RunningIsUnfrozen(m) && CounterCovers(m) && !m.inEvent
    ensures Inv(ResumeApp(m, conts).m)
    ensures m.exited ==> ResumeApp(m, conts).m.resumed == m.resumed && ResumeApp(m, conts).m.exited
  {
    ThawInv(m.(mayRun := !HasPendingEvents(m)), NO_THREAD, true, conts);
  }

  lemma ReleaseDyingInv(m: Machine, t: Tid, th: Thread, conts: map<Tid, ContResult>)
    requires Inv(m) && t in m.threads && th.state == Dying && th.gotPending == m.threads[t].gotPending
    ensures var m' := Thaw(SetThread(m, t, th), t, false, conts).m; Inv(m') && Thawing(m, m')
  {
    SetThreadInv(m, t, th);
    ThawInv(SetThread(m, t, th), t, false, conts);
  }

  lemma BuryInv(m: Machine, t: Tid, th: Thread)
    requires Inv(m) && t in m.threads && th.state == Dead && th.gotPending == m.threads[t].gotPending
    ensures var m' := DelThread(SetThread(m, t, th), t); Inv(m') && Quiet(m, m')
  {
    SetThreadInv(m, t, th);
    DelThreadInv(SetThread(m, t, th), t);
  }

  lemma NotFrozen(m: Machine, t: Tid)
    requires Inv(m) && t in m.threads
    ensures m.threads[t].IsRunning() ==> m.threads[t].suspendCount == 0
  {
  }

  lemma QuietThaws(m: Machine, m': Machine)
    requires Quiet(m, m')
    ensures Thawing(m, m')
  {
  }

  lemma SettleThreadInv(m: Machine, ev: Event, conts: map<Tid, ContResult>)
    requires Inv(m) && ev.tid in m.threads
    ensures Inv(SettleThread(m, ev, conts)) && Thawing(m, SettleThread(m, ev, conts))
  {
    hide KeepsSignal;
    hide Inv;
    hide Thaw;
    hide DelThread;
    hide SetThread;
    hide Quiet;
    hide Thawing;
    NotFrozen(m, ev.tid);
    var t := ev.tid;
    var th := m.threads[t].(childSignum := if KeepsSignal(ev) then m.threads[t].childSignum else 0);
    if th.state == Dying {
      ReleaseDyingInv(m, t, th.(suspendCount := 0, userSuspend := 0), conts);
    } else if th.state == Dead {
      BuryInv(m, t, th);
      QuietThaws(m, DelThread(SetThread(m, t, th), t));
    } else {
      SetThreadInv(m, t, th);
      QuietThaws(m, SetThread(m, t, th));
    }
  }

  lemma ContinueAfterInv(m: Machine, ev: Option<Event>, conts: map<Tid, ContResult>)
    requires Inv(m)
    ensures Inv(ContinueAfter(m, ev, conts).m)
  {
    if ev.Some? && MayContinue(m, ev.value) {
      if ev.value.tid in m.threads { SettleThreadInv(m, ev.value, conts); }
      var m1 := if ev.value.tid in m.threads then SettleThread(m, ev.value, conts) else m;
      ResumeAppInv(m1.(inEvent := false), conts);
    }
  }

  // ---------------------------------------------------------------- events

  lemma DropKeeps(events: seq<Event>, eid: word, name: Text)
    ensures events == [] ==> DelPendingEvent(events, eid, name) == []
  {
  }

  lemma AwaitStopInv(m: Machine, t: Tid, waits: seq<Report>)
    requires Inv(m) && t in m.threads
    ensures Inv(AwaitStop(m, t, waits).m) && Quiet(m, AwaitStop(m, t, waits).m)
  {
    hide Inv;
    hide StorePending;
    hide Heard;
    var r := NextReport(waits);
    KernelInv(m, Heard(m, r).kernel);
    NotFrozen(m, t);
    var m1 := SetThread(m, t, m.threads[t].(waitingSigstop := true));
    SetThreadInv(m, t, m.threads[t].(waitingSigstop := true));
    KernelInv(m1, Heard(m1, r).kernel);
    StorePendingInv(Heard(m1, r), r.pid, r.status);
  }

  lemma AddThreadInv(m: Machine, t: Tid)
    requires Inv(m)
    ensures Inv(AddThread(m, t)) && Quiet(m, AddThread(m, t))
  {
    SetThreadInv(m, t, NEW_THREAD);
  }

  lemma SideEffectInv(s: Stepped, step: SideStep)
    requires Inv(s.m)
    ensures Inv(SideEffect(s, step).m) && Quiet(s.m, SideEffect(s, step).m)
  {
    match step
    case DropLoad(name) => DropKeeps(s.m.events, LIBRARY_LOAD, name);
    case Library(ev) => EnqueueInv(s.m, ev, InFront);
    case Birth(t) =>
      if t !in s.m.threads {
        AddThreadInv(s.m, t);
        var ev := ThreadEvent(s.m, THREAD_START, t);
        EnqueueInv(AddThread(s.m, t), ev, InFront);
        AwaitStopInv(Enqueue(AddThread(s.m, t), ev, InFront), t, s.waits);
      }
    case Death(t) => DeadThreadInv(s.m, t, Dying);
  }

  lemma SideEffectsInv(s: Stepped, steps: seq<SideStep>)
    requires Inv(s.m)
    ensures Inv(SideEffects(s, steps).m) && Quiet(s.m, SideEffects(s, steps).m)
    decreases |steps|
  {
    if steps != [] {
      SideEffectInv(s, steps[0]);
      SideEffectsInv(SideEffect(s, steps[0]), steps[1..]);
    }
  }

  lemma HandleExtendedWaitInv(m: Machine, r: Report, waits: seq<Report>)
    requires Inv(m)
    ensures var x := HandleExtendedWait(m, r, waits); Inv(x.m) && Quiet(m, x.m)
  {
    hide Inv;
    hide AddThread;
    hide AwaitStop;
    hide ForgetSeen;
    hide Enqueue;
    if r.status.StoppedBy? && r.status.clone.Some? {
      var t := r.status.clone.value;
      AddThreadInv(m, t);
      var m1 := AddThread(m, t);
      AwaitStopInv(m1, t, waits);
      ForgetSeenInv(m1, t);
      var s := if t in m1.seen then Stepped(ForgetSeen(m1, t), waits) else AwaitStop(m1, t, waits);
      EnqueueInv(s.m, ThreadEvent(s.m, THREAD_START, t), InFront);
    }
  }

  lemma ForgetSeenInv(m: Machine, t: Tid)
    requires Inv(m)
    ensures Inv(ForgetSeen(m, t)) && Quiet(m, ForgetSeen(m, t))
  {
    KernelInv(m, Trusted(m, t in m.kernel.stopped).kernel);
    SeenInv(Trusted(m, t in m.kernel.stopped), RemoveFirst(m.seen, t));
  }

  lemma CheckNewEventsInv(m: Machine, waits: seq<Report>, noTimeout: bool)
    requires Inv(m)
    ensures var c := CheckNewEvents(m, waits, noTimeout); Inv(c.m) && Quiet(m, c.m)
    decreases |waits|, 0
  {
    var r0 := NextReport(waits);
    var w0 := Rest(waits);
    if r0.pid > 0 {
      TakeReportInv(m, r0, w0);
    } else {
      RetrievePendingInv(m);
      var (m1, pending) := RetrievePending(m);
      if pending.Some? {
        HandleExtendedWaitInv(m1, pending.value, w0);
      } else if !noTimeout && NextReport(w0).pid > 0 {
        TakeReportInv(m1, NextReport(w0), Rest(w0));
      }
    }
  }

  lemma TakeReportInv(m: Machine, r: Report, waits: seq<Report>)
    requires Inv(m)
    ensures var c := TakeReport(m, r, waits); Inv(c.m) && Quiet(m, c.m)
    decreases |waits|, 1
  {
    hide Inv;
    hide Heard;
    hide Released;
    hide StorePending;
    hide HandleExtendedWait;
    var m0 := Heard(m, r);
    KernelInv(m, m0.kernel);
    HandleExtendedWaitInv(m0, r, waits);
    var x := HandleExtendedWait(m0, r, waits);
    if r.pid !in x.m.threads {
      StorePendingInv(x.m, r.pid, r.status);
      KernelInv(x.m, Released(x.m, r.pid).kernel);
      var m1 := if r.pid in x.m.deleted then Released(x.m, r.pid) else StorePending(x.m, r.pid, r.status);
      CheckNewEventsInv(m1, x.waits, true);
    }
  }

  // One pass of get_debug_event: nothing is resumed while an event is being handled.
  ghost predicate Passing(m: Machine, g: Got) {
    && Inv(g.m)
    && g.m.inEvent == m.inEvent
    && (m.exited ==> g.m.exited)
    && (m.exited || (m.inEvent && !m.mayRun) ==> g.m.resumed == m.resumed && (g.m.exited || !g.m.mayRun))
  }

  lemma QuietPassing(m0: Machine, m: Machine, g: Got)
    requires Quiet(m0, m) && Passing(m, g)
    ensures Passing(m0, g)
  {
  }

  lemma StayPassing(m0: Machine, m: Machine, ev: Option<Event>)
    requires Inv(m) && Quiet(m0, m)
    ensures Passing(m0, Got(m, ev))
  {
  }

  lemma SilentlyInv(m: Machine, ev: Event, conts: map<Tid, ContResult>)
    requires Inv(m)
    ensures Passing(m, Silently(m, ev, conts))
  {
    if !m.inEvent {
      ResumeAppInv(m, conts);
      ThawInv(m.(mayRun := !HasPendingEvents(m)), NO_THREAD, true, conts);
    }
  }

  lemma ReadyInv(m: Machine, t: Tid, ev: Event)
    requires Inv(m)
    ensures Passing(m, Ready(m, t, ev))
  {
    if t in m.threads { SetThreadInv(m, t, m.threads[t].(singleStep := false)); }
  }

  lemma DeliverInv(m0: Machine, m: Machine, t: Tid, code: nat, suspend: bool, ev: Event, conts: map<Tid, ContResult>)
    requires Inv(m) && Quiet(m0, m) && t in m.threads
    ensures Passing(m0, Deliver(m, t, code, suspend, ev, conts))
  {
    var m1 := SetThread(m, t, m.threads[t].(childSignum := code));
    SetThreadInv(m, t, m.threads[t].(childSignum := code));
    var g := Deliver(m, t, code, suspend, ev, conts);
    if !suspend && ev.eid == EXCEPTION { SilentlyInv(m1, ev, conts); } else { ReadyInv(m1, t, ev); }
    QuietPassing(m0, m1, g);
  }

  lemma BptEventInv(m: Machine, m1: Machine, t: Tid, ea: word, suspend: bool, code: nat, ev: Event, rd: Round)
    requires Inv(m) && Inv(m1) && Quiet(m, m1) && t in m1.threads
    ensures Passing(m, BptEvent(m, m1, t, ea, suspend, code, ev, rd))
  {
    hide Passing;
    hide Silently;
    hide Deliver;
    hide Inv;
    StayPassing(m, m, Some(ev));
    StayPassing(m, m1, Some(ev));
    SilentlyInv(m1, ev, rd.env.conts);
    QuietPassing(m, m1, Silently(m1, ev, rd.env.conts));
    forall c: nat, e: Event ensures Passing(m, Deliver(m1, t, c, suspend, e, rd.env.conts)) {
      DeliverInv(m, m1, t, c, suspend, e, rd.env.conts);
    }
  }

  lemma BptOrSignalInv(m: Machine, t: Tid, sig: nat, rd: Round, waits: seq<Report>, base: Event)
    requires Inv(m) && t in m.threads && !(sig == SIGSTOP && m.threads[t].waitingSigstop)
    ensures Passing(m, StopEvent(m, t, sig, rd, waits, base))
  {
    var ev := base.(eid := EXCEPTION, payload := Exc(ExceptionInfo(sig % TWO_32, true, BADADDR, [])));
    var known := sig in m.exceptions;
    var suspend := known ==> m.exceptions[sig].breakOn;
    var masked := known && m.exceptions[sig].handle;
    var ea := BptAddress(m.arm, sig, base.ea);
    if ea != BADADDR {
      var m1 := SideEffects(Stepped(m, waits), rd.cause.steps).m;
      SideEffectsInv(Stepped(m, waits), rd.cause.steps);
      BptEventInv(m, m1, t, ea, suspend, if masked then 0 else sig, ev, rd);
    } else {
      DeliverInv(m, m, t, if !suspend && masked then 0 else sig, suspend, ev, rd.env.conts);
    }
  }

  lemma StopEventInv(m: Machine, t: Tid, sig: nat, rd: Round, waits: seq<Report>, base: Event)
    requires Inv(m) && t in m.threads && m.threads[t].state == Stopped
    ensures Passing(m, StopEvent(m, t, sig, rd, waits, base))
  {
    if sig == SIGSTOP && m.threads[t].waitingSigstop {
      var ev := base.(eid := EXCEPTION, payload := Exc(ExceptionInfo(sig % TWO_32, true, BADADDR, [])));
      var m1 := SetThread(m, t, m.threads[t].(waitingSigstop := false));
      SetThreadInv(m, t, m.threads[t].(waitingSigstop := false));
      SilentlyInv(m1, ev, rd.env.conts);
      QuietPassing(m, m1, Silently(m1, ev, rd.env.conts));
    } else {
      BptOrSignalInv(m, t, sig, rd, waits, base);
    }
  }

  lemma ExitEventInv(m: Machine, t: Tid, status: WaitStatus, base: Event)
    requires Inv(m) && t in m.threads && !m.mayRun
    ensures Passing(m, ExitEvent(m, t, status, base))
  {
    var code := match status case Signaled(sig) => sig case Exited(c) => c case _ => 0;
    var ev := base.(payload := ExitCode(code));
    if |m.threads| <= 1 || Some(t) == m.process {
      ReadyInv(m.(exited := true), t, ev.(eid := PROCESS_EXIT));
    } else {
      DeadThreadInv(m, t, Dead);
      ReadyInv(DeadThread(m, t, Dead), t, ev.(eid := NO_EVENT));
      QuietPassing(m, DeadThread(m, t, Dead), ExitEvent(m, t, status, base));
    }
  }

  lemma PrepareEventInv(m: Machine, r: Report, prepared: bool, rd: Round, waits: seq<Report>)
    requires Inv(m) && !m.mayRun && r.pid in m.threads && m.threads[r.pid].state == Stopped
    ensures Passing(m, PrepareEvent(m, r, prepared, rd, waits))
  {
    var base := Event(NO_EVENT, ProcessId(m), r.pid, if m.exited then BADADDR else rd.ip, false, NoPayload);
    if prepared {
      ReadyInv(m, r.pid, Event(NO_EVENT, 0, NO_THREAD, 0, false, NoPayload));
    } else if r.status.StoppedBy? {
      StopEventInv(m, r.pid, r.status.sig, rd, waits, base);
    } else {
      ExitEventInv(m, r.pid, r.status, base);
    }
  }

  lemma HaltInv(m: Machine, t: Tid, env: Env)
    requires Inv(m) && t in m.threads
    ensures var f := Halt(m, t, env); Inv(f.m) && Quiet(m, f.m) && (f.done ==> !f.m.mayRun)
  {
    hide Freeze;
    var m1 := SetThread(m, t, m.threads[t].(state := Stopped));
    SetThreadInv(m, t, m.threads[t].(state := Stopped));
    FreezeInv(m1, NO_THREAD, true, env);
  }

  lemma GetDebugEventInv(m: Machine, rd: Round)
    requires Inv(m)
    ensures Passing(m, GetDebugEvent(m, rd))
  {
    hide Inv;
    hide Halt;
    hide CheckNewEvents;
    hide PrepareEvent;
    hide NotStopped;
    CheckNewEventsInv(m, rd.env.waits, rd.noTimeout);
    var c := CheckNewEvents(m, rd.env.waits, rd.noTimeout);
    if c.found.Some? && c.found.value.pid in c.m.threads {
      var env := rd.env.(waits := c.waits);
      var m1 := NotStopped(c.m, c.found.value);
      KernelInv(c.m, m1.kernel);
      HaltInv(m1, c.found.value.pid, env);
      var f := Halt(m1, c.found.value.pid, env);
      if f.done {
        PrepareEventInv(f.m, c.found.value, c.prepared, rd, f.waits);
        QuietPassing(m, f.m, PrepareEvent(f.m, c.found.value, c.prepared, rd, f.waits));
      }
    }
  }

  lemma FetchEventInv(m: Machine, rounds: seq<Round>)
    requires Inv(m)
    ensures var g := FetchEvent(m, rounds);
            && Inv(g.m)
            && (g.ev.Some? ==> g.m.inEvent)
            && (g.ev.None? ==> g.m.inEvent == m.inEvent)
            && (m.exited || (m.inEvent && !m.mayRun) ==>
                  g.m.resumed == m.resumed && (g.m.exited || (g.m.inEvent && !g.m.mayRun)))
    decreases |rounds|
  {
    if m.events == [] && rounds != [] {
      GetDebugEventInv(m, rounds[0]);
      var g := GetDebugEvent(m, rounds[0]);
      if g.ev.Some? {
        EnqueueInv(g.m, g.ev.value, InBack);
        FetchEventInv(Enqueue(g.m, g.ev.value, InBack), rounds[1..]);
      }
    }
  }

  // ---------------------------------------------------------------- the other requests

  lemma AccessMemoryInv(m: Machine, env: Env)
    requires Inv(m)
    ensures Inv(AccessMemory(m, env)) && Thawing(m, AccessMemory(m, env))
  {
    if !m.exited && m.process.Some? {
      FreezeInv(m, NO_THREAD, true, env);
      ThawInv(Freeze(m, NO_THREAD, true, env).m, NO_THREAD, true, env.conts);
    }
  }

  lemma SuspendThreadInv(m: Machine, t: Tid, env: Env)
    requires Inv(m)
    ensures Inv(SuspendThread(m, t, env)) && Quiet(m, SuspendThread(m, t, env))
  {
    hide Freeze;
    FreezeInv(m, t, false, env);
    var f := Freeze(m, t, false, env);
    if t in f.m.threads {
      SetThreadInv(f.m, t, f.m.threads[t].(userSuspend := f.m.threads[t].userSuspend + 1));
    }
  }

  lemma ContinueThreadInv(m: Machine, t: Tid, conts: map<Tid, ContResult>)
    requires Inv(m)
    ensures Inv(ContinueThread(m, t, conts)) && Thawing(m, ContinueThread(m, t, conts))
  {
    if t in m.threads {
      var th := m.threads[t];
      if th.userSuspend > 1 { SetThreadInv(m, t, th.(userSuspend := th.userSuspend - 1)); }
      SetThreadInv(m, t, th.(userSuspend := 0));
      ThawInv(SetThread(m, t, th.(userSuspend := 0)), t, false, conts);
    }
  }

  lemma PauseProcessInv(m: Machine)
    requires Inv(m)
    ensures Inv(PauseProcess(m)) && PauseProcess(m).resumed == m.resumed
    ensures PauseProcess(m).inEvent == m.inEvent && PauseProcess(m).exited == m.exited && !PauseProcess(m).mayRun
  {
    if m.threads.Keys != {} {
      var t := Least(m.threads.Keys);
      SetThreadInv(m, t, m.threads[t].(waitingSigstop := true));
    }
  }

  lemma SlayAllInv(s: Thawed, todo: set<Tid>, failed: set<Tid>)
    requires Inv(s.m) && todo <= s.m.threads.Keys
    ensures Inv(SlayAll(s, todo, failed).m) && Quiet(s.m, SlayAll(s, todo, failed).m)
    decreases |todo|
  {
    if todo != {} {
      var t := Least(todo);
      KernelInv(s.m, Released(s.m, t).kernel);
      SetThreadInv(Released(s.m, t), t, s.m.threads[t].(state := Running, suspendCount := 0));
      SlayAllInv(SlayOne(s, t, failed), todo - {t}, failed);
    }
  }

  lemma ExitProcessInv(m: Machine, env: Env, failed: set<Tid>)
    requires Inv(m)
    ensures var m' := ExitProcess(m, env, failed);
            Inv(m') && m'.resumed == m.resumed && (Quiet(m, m') || m'.exited)
  {
    FreezeInv(m, NO_THREAD, true, env);
    var f := Freeze(m, NO_THREAD, true, env);
    SlayAllInv(Thawed(f.m, true), f.m.threads.Keys, failed);
  }

  lemma StartProcessInv(m: Machine, pid: Tid, hasMaps: bool, steps: seq<SideStep>, attach: bool)
    requires Inv(m)
    ensures var m' := StartProcess(m, pid, hasMaps, steps, attach);
            Inv(m') && m'.resumed == m.resumed && m'.inEvent == m.inEvent && m'.exited == m.exited && !m'.mayRun
  {
    var m0 := m.(deleted := [], process := Some(pid), kernel := m.kernel.(stopped := m.kernel.stopped + {pid}));
    AddThreadInv(m0, pid);
    var m1 := AddThread(m0, pid).(mayRun := false);
    SideEffectsInv(Stepped(m1, []), steps);
    var m2 := SideEffects(Stepped(m1, []), steps).m;
    var ev := Event(PROCESS_START, pid, pid, BADADDR, true, NoPayload);
    EnqueueInv(m2, ev, InBack);
    EnqueueInv(Enqueue(m2, ev, InBack), ev.(eid := PROCESS_ATTACH), InBack);
  }

  lemma AccessAllInv(m: Machine, envs: seq<Env>)
    requires Inv(m)
    ensures Inv(AccessAll(m, envs))
    decreases |envs|
  {
    if envs != [] {
      AccessMemoryInv(m, envs[0]);
      AccessAllInv(AccessMemory(m, envs[0]), envs[1..]);
    }
  }

  // A broken session that is taken up again is held until the client continues.
  lemma ReconnectInv(m: Machine, pid: Tid, envs: seq<Env>, hasMaps: bool,
                     steps: seq<SideStep>, libraries: seq<SideStep>)
    requires Inv(m)
    ensures var m' := Reconnect(m, pid, envs, hasMaps, steps, libraries); Inv(m') && !m'.mayRun
  {
    hide StartProcess;
    var m0 := m.(inEvent := false);
    AccessAllInv(m0, envs);
    StartProcessInv(AccessAll(m0, envs), pid, hasMaps, steps, true);
    var m1 := StartProcess(AccessAll(m0, envs), pid, hasMaps, steps, true);
    SideEffectsInv(Stepped(m1, []), libraries);
  }

  lemma SetResumeModeInv(m: Machine, t: Tid, into: bool)
    requires Inv(m)
    ensures Inv(SetResumeMode(m, t, into))
  {
    if t in m.threads { SetThreadInv(m, t, m.threads[t].(singleStep := true)); }
  }

  lemma ExceptionsInv(m: Machine, table: map<nat, ExceptionFlags>)
    requires Inv(m)
    ensures Inv(m.(exceptions := table))
  {
  }

  lemma DetachInv(m: Machine, ok: bool)
    requires Inv(m)
    ensures Inv(Detach(m, ok))
  {
    assert PendingSet(map[]) == {};
  }

  lemma TerminateInv(m: Machine, env: Env, failed: set<Tid>)
    ensures Inv(Terminate(m, env, failed))
  {
    hide ExitProcess;
    assert PendingSet(map[]) == {};
  }

  lemma ApplyInv(m: Machine, op: Op)
    requires Inv(m)
    ensures Inv(Apply(m, op))
  {
    hide Inv;
    hide FetchEvent;
    hide ContinueAfter;
    hide AccessMemory;
    hide SuspendThread;
    hide ContinueThread;
    match op
    case OpFetch(rounds) => FetchEventInv(m, rounds);
    case OpContinue(ev, conts) => ContinueAfterInv(m, ev, conts);
    case OpAccessMemory(env) => AccessMemoryInv(m, env);
    case OpSuspendThread(t, env) => SuspendThreadInv(m, t, env);
    case OpContinueThread(t, conts) => ContinueThreadInv(m, t, conts);
    case OpResumeMode(t, into) => SetResumeModeInv(m, t, into);
    case OpPause => PauseProcessInv(m);
    case OpExit(env, failed) => ExitProcessInv(m, env, failed);
    case OpDetach(ok) => DetachInv(m, ok);
    case OpStart(pid, hasMaps, steps, attach) => StartProcessInv(m, pid, hasMaps, steps, attach);
    case OpReconnect(pid, envs, hasMaps, steps, libraries) => ReconnectInv(m, pid, envs, hasMaps, steps, libraries);
    case OpLibraries(steps, waits) => SideEffectsInv(Stepped(m, waits), steps);
    case OpExceptions(table) => ExceptionsInv(m, table);
    case OpTerminate(env, failed) => TerminateInv(m, env, failed);
  }

  /** Safety of every run: from a state that satisfies the invariants, whatever
      the requests and the kernel's answers, they hold at the end. */
  lemma RunInv(m: Machine, ops: seq<Op>)
    requires Inv(m)
    ensures Inv(Run(m, ops))
    decreases |ops|
  {
    if ops != [] {
      ApplyInv(m, ops[0]);
      RunInv(Apply(m, ops[0]), ops[1..]);
    }
  }

  lemma InitialInv(arm: bool)
    ensures Inv(Initial(arm))
  {
    assert PendingSet(map[]) == {};
  }

  /** Every reachable state: assertions 30186 and 30188 cannot fail, and a queued
      or undelivered event of a live process keeps may_run false. */
  lemma ReachableSafe(arm: bool, ops: seq<Op>)
    ensures var m := Run(Initial(arm), ops);
            && (!m.exited && (m.events != [] || m.inEvent) ==> !m.mayRun)
            && (forall t :: t in m.threads && m.threads[t].IsRunning() ==> m.threads[t].suspendCount == 0)
            && m.npending >= |PendingSet(m.threads)|
            && (RetrievePending(m).1.Some? <==> exists t :: t in m.threads && m.threads[t].Deliverable())
  {
    InitialInv(arm);
    RunInv(Initial(arm), ops);
    RetrieveSucceedsIff(Run(Initial(arm), ops));
  }

  // ---------------------------------------------------------------- delivery to continue

  // Requests that neither continue after an event nor end the session or take up a broken
  // one, which forgets the event.
  predicate KeepsEvent(op: Op) {
    !op.OpContinue? && !op.OpTerminate? && !op.OpReconnect?
  }

  ghost predicate Held(m: Machine) {
    m.exited || (m.inEvent && !m.mayRun)
  }

  lemma ApplyHeld(m: Machine, op: Op)
    requires Inv(m) && Held(m) && KeepsEvent(op)
    ensures Held(Apply(m, op)) && Apply(m, op).resumed == m.resumed
  {
    hide Inv;
    hide FetchEvent;
    hide AccessMemory;
    hide SuspendThread;
    hide ContinueThread;
    hide PauseProcess;
    hide ExitProcess;
    hide StartProcess;
    hide SideEffects;
    match op
    case OpFetch(rounds) => FetchEventInv(m, rounds);
    case OpAccessMemory(env) => AccessMemoryInv(m, env);
    case OpSuspendThread(t, env) => SuspendThreadInv(m, t, env);
    case OpContinueThread(t, conts) => ContinueThreadInv(m, t, conts);
    case OpResumeMode(t, into) =>
    case OpPause => PauseProcessInv(m);
    case OpExit(env, failed) => ExitProcessInv(m, env, failed);
    case OpDetach(ok) =>
    case OpStart(pid, hasMaps, steps, attach) => StartProcessInv(m, pid, hasMaps, steps, attach);
    case OpLibraries(steps, waits) => SideEffectsInv(Stepped(m, waits), steps);
    case OpExceptions(table) =>
  }

  /** Between the delivery of an event and its continue, no sequence of requests
      lets dbg_thaw_threads resume a thread that is not dying: neither memory
      access with its suspend/resume bracket, nor thread continues, nor further
      fetches. */
  lemma NoResumeBeforeContinue(m: Machine, ops: seq<Op>)
    requires Inv(m) && m.inEvent
    requires forall op :: op in ops ==> KeepsEvent(op)
    ensures Run(m, ops).resumed == m.resumed && Held(Run(m, ops))
  {
    HeldRun(m, ops);
  }

  lemma HeldRun(m: Machine, ops: seq<Op>)
    requires Inv(m) && Held(m)
    requires forall op :: op in ops ==> KeepsEvent(op)
    ensures Run(m, ops).resumed == m.resumed && Held(Run(m, ops))
    decreases |ops|
  {
    if ops != [] {
      assert ops[0] in ops;
      ApplyHeld(m, ops[0]);
      ApplyInv(m, ops[0]);
      HeldRun(Apply(m, ops[0]), ops[1..]);
    }
  }
}
