/** Two assertions of the program that rest on the kernel: a thread taken for stopped does
    not report a stop (30057), and no thread with a pending status reports another one
    (30185).  The kernel's contract is that a stopped thread reports no stop until it is
    resumed.  Under it, over every run, each of them fails in one way only. */
module KernelContract {
  import opened DebugEvents
  import opened LeastElement
  import opened ThreadMachine
  import opened ThreadOps

  predicate StopPending(th: Thread) {
    th.gotPending && th.pendingStatus.StoppedBy?
  }

  // What the table says about a thread, given whether the kernel holds it stopped: a
  // pending status, or the state STOPPED without an awaited SIGSTOP, only of held threads;
  // and a pending stop of a STOPPED thread only while its SIGSTOP is awaited.  A spared
  // thread is exempt from the last; a quiet one is held and has no pending stop.
  predicate Fine(th: Thread, held: bool, spared: bool, quiet: bool) {
    && (th.gotPending ==> held)
    && (th.state == Stopped && !th.waitingSigstop ==> held)
    && (!spared && StopPending(th) && th.state == Stopped ==> th.waitingSigstop)
    && (quiet ==> held && !StopPending(th))
  }

  // How the two assertions may fail.
  predicate Excused(b: Broken) {
    && (b.number == 30057 ==> b.th.state == Stopped && b.th.waitingSigstop && b.status.StoppedBy?)
    && (b.number == 30185 ==> b.th.gotPending && b.status.Signaled?)
  }

  predicate AllExcused(broken: seq<Broken>) {
    forall b :: b in broken ==> Excused(b)
  }

  predicate AllFine(m: Machine, spared: set<Tid>, quiet: set<Tid>) {
    forall t :: t in m.threads ==> Fine(m.threads[t], t in m.kernel.stopped, t in spared, t in quiet)
  }

  // As long as the kernel kept its contract.
  predicate Sound(m: Machine, spared: set<Tid>, quiet: set<Tid>) {
    m.kernel.honest ==> AllExcused(m.kernel.broken) && (!m.exited ==> AllFine(m, spared, quiet))
  }

  // ---------------------------------------------------------------- single threads

  lemma SetThreadSound(m: Machine, t: Tid, th: Thread, spared: set<Tid>, quiet: set<Tid>)
    requires Sound(m, spared, quiet)
    requires m.kernel.honest && !m.exited ==> Fine(th, t in m.kernel.stopped, t in spared, t in quiet)
    ensures Sound(SetThread(m, t, th), spared, quiet)
  {
  }

  lemma HeardSound(m: Machine, r: Report, spared: set<Tid>, quiet: set<Tid>)
    requires Sound(m, spared, quiet)
    ensures Sound(Heard(m, r), spared, quiet)
  {
  }

  lemma FineAt(m: Machine, t: Tid, spared: set<Tid>, quiet: set<Tid>)
    requires Sound(m, spared, quiet) && t in m.threads && m.kernel.honest && !m.exited
    ensures Fine(m.threads[t], t in m.kernel.stopped, t in spared, t in quiet)
  {
  }

  lemma WeakerSound(m: Machine, spared: set<Tid>, quiet: set<Tid>)
    requires Sound(m, {}, quiet)
    ensures Sound(m, spared, {})
  {
  }

  // Changes that the contract is not about.
  lemma OtherSound(m: Machine, r: Machine, spared: set<Tid>, quiet: set<Tid>)
    requires Sound(m, spared, quiet) && r.threads == m.threads && r.kernel == m.kernel && (m.exited ==> r.exited)
    ensures Sound(r, spared, quiet)
  {
  }

  lemma NoneLostSound(m: Machine, r: Report, spared: set<Tid>, quiet: set<Tid>)
    requires Sound(m, spared, quiet) && r.pid in m.threads
    ensures Sound(NoneLost(Heard(m, r), r.pid, r.status), spared, quiet)
  {
    var h := Heard(m, r);
    HeardSound(m, r, spared, quiet);
    if h.kernel.honest && !m.exited { FineAt(m, r.pid, spared, quiet); }
    var claim := Broken(30185, h.threads[r.pid], r.status);
    assert h.kernel.honest && AllExcused(h.kernel.broken) && Excused(claim) ==> AllExcused(h.kernel.broken + [claim]);
  }

  /** Storing a report keeps the table sound. */
  lemma StoreSound(m: Machine, r: Report, spared: set<Tid>, quiet: set<Tid>)
    requires Sound(m, spared, quiet)
    ensures Sound(StorePending(Heard(m, r), r.pid, r.status), spared, quiet)
  {
    var h := Heard(m, r);
    HeardSound(m, r, spared, quiet);
    if r.pid in m.threads {
      NoneLostSound(m, r, spared, quiet);
      StoredFine(m, r, spared, quiet);
      StoreKnownSound(m, r, spared, quiet);
    } else {
      ReleasedSound(h, r.pid, spared, quiet);
    }
  }

  lemma StoredFine(m: Machine, r: Report, spared: set<Tid>, quiet: set<Tid>)
    requires Sound(m, spared, quiet) && r.pid in m.threads
    ensures Heard(m, r).kernel.honest && !m.exited ==>
              Fine(Stored(m.threads[r.pid], r.status), true, r.pid in spared, r.pid in quiet)
  {
    if Heard(m, r).kernel.honest && !m.exited { FineAt(m, r.pid, spared, quiet); }
  }

  lemma StoreKnownSound(m: Machine, r: Report, spared: set<Tid>, quiet: set<Tid>)
    requires r.pid in m.threads && Sound(NoneLost(Heard(m, r), r.pid, r.status), spared, quiet)
    requires Heard(m, r).kernel.honest && !m.exited ==>
               Fine(Stored(m.threads[r.pid], r.status), true, r.pid in spared, r.pid in quiet)
    ensures Sound(StorePending(Heard(m, r), r.pid, r.status), spared, quiet)
  {
    hide Fine;
    hide Stored;
    hide AllExcused;
    var h := NoneLost(Heard(m, r), r.pid, r.status);
    assert h.kernel.stopped == Heard(m, r).kernel.stopped && h.kernel.honest == Heard(m, r).kernel.honest;
    SetThreadSound(h, r.pid, Stored(m.threads[r.pid], r.status), spared, quiet);
  }

  lemma ReleasedSound(m: Machine, t: Tid, spared: set<Tid>, quiet: set<Tid>)
    requires Sound(m, spared, quiet) && t !in m.threads
    ensures Sound(Released(m, t), spared, quiet)
  {
  }

  lemma DelThreadSound(m: Machine, t: Tid, spared: set<Tid>, quiet: set<Tid>)
    requires Sound(m, spared, quiet) && t in m.threads
    ensures Sound(DelThread(m, t), spared, quiet) && Sound(DelThread(m, t), spared - {t}, quiet)
  {
  }

  lemma DeadThreadSound(m: Machine, t: Tid, state: ThreadState, spared: set<Tid>, quiet: set<Tid>)
    requires Sound(m, spared, quiet) && state in {Dying, Dead}
    ensures Sound(DeadThread(m, t, state), spared, quiet)
    ensures state == Dead && t in m.threads ==> Sound(DeadThread(m, t, state), spared - {t}, quiet)
  {
    if t in m.threads {
      hide AllExcused;
      if m.kernel.honest && !m.exited { FineAt(m, t, spared, quiet); }
      var m0 := SetThread(m, t, m.threads[t].(state := state));
      SetThreadSound(m, t, m.threads[t].(state := state), spared, quiet);
      var m1 := Enqueue(m0, ThreadEvent(m, THREAD_EXIT, t), InBack);
      OtherSound(m0, m1, spared, quiet);
      if state == Dead { DelThreadSound(m1, t, spared, quiet); }
    }
  }

  // ---------------------------------------------------------------- freeze

  lemma KillAllSound(s: Signalling, todo: set<Tid>, kills: map<Tid, KillResult>, spared: set<Tid>, quiet: set<Tid>)
    requires Sound(s.m, spared, quiet) && todo <= s.m.threads.Keys
    ensures Sound(KillAll(s, todo, kills).m, spared, quiet)
    decreases |todo|
  {
    if todo != {} {
      var t := Least(todo);
      KillOneSound(s, t, kills, spared, quiet);
      KillAllSound(KillOne(s, t, kills), todo - {t}, kills, spared, quiet);
    }
  }

  lemma KillOneSound(s: Signalling, t: Tid, kills: map<Tid, KillResult>, spared: set<Tid>, quiet: set<Tid>)
    requires Sound(s.m, spared, quiet) && t in s.m.threads
    ensures Sound(KillOne(s, t, kills).m, spared, quiet)
  {
    hide AllExcused;
    SetThreadSound(s.m, t, Signalled(s.m.threads[t], KillOf(kills, t)), spared, quiet);
  }

  // A thread whose stop has just been heard is taken for stopped.
  lemma StopHeardSound(m: Machine, r: Report, th: Thread, spared: set<Tid>, quiet: set<Tid>)
    requires Sound(m, spared, quiet) && r.pid in m.threads && r.status.StoppedBy?
    requires th == m.threads[r.pid].(waitingSigstop := false, state := Stopped)
    ensures Sound(SetThread(Heard(m, r), r.pid, th), spared, quiet)
  {
    hide AllExcused;
    HeardSound(m, r, spared, quiet);
    if Heard(m, r).kernel.honest && !m.exited { FineAt(m, r.pid, spared, quiet); }
    SetThreadSound(Heard(m, r), r.pid, th, spared, quiet);
  }

  lemma WaitOneSound(w: Waiting, spared: set<Tid>, quiet: set<Tid>)
    requires Sound(w.m, spared, quiet) && w.queue <= w.m.threads.Keys && w.waits != []
    ensures Sound(WaitOne(w).m, spared, quiet)
  {
    hide Sound;
    hide StorePending;
    hide Heard;
    var r := w.waits[0];
    StoreSound(w.m, r, spared, quiet);
    if r.pid in w.queue && r.status.StoppedBy? {
      StopHeardSound(w.m, r, w.m.threads[r.pid].(waitingSigstop := false, state := Stopped), spared, quiet);
    }
  }

  lemma WaitAllSound(w: Waiting, spared: set<Tid>, quiet: set<Tid>)
    requires Sound(w.m, spared, quiet) && w.queue <= w.m.threads.Keys
    ensures Sound(WaitAll(w).m, spared, quiet)
    decreases |w.waits|
  {
    hide Sound;
    hide WaitOne;
    if w.queue != {} && w.waits != [] {
      WaitOneSound(w, spared, quiet);
      WaitAllSound(WaitOne(w), spared, quiet);
    }
  }

  lemma ReapAllSound(m: Machine, dead: seq<Tid>, spared: set<Tid>, quiet: set<Tid>)
    requires Sound(m, spared, quiet)
    ensures Sound(ReapAll(m, dead), spared, quiet)
    decreases |dead|
  {
    hide Sound;
    hide DeadThread;
    if dead != [] {
      DeadThreadSound(m, dead[0], Dead, spared, quiet);
      ReapAllSound(DeadThread(m, dead[0], Dead), dead[1..], spared, quiet);
    }
  }

  lemma FreezeSound(m: Machine, tid: Tid, exclude: bool, env: Env, spared: set<Tid>, quiet: set<Tid>)
    requires Sound(m, spared, quiet)
    ensures Sound(Freeze(m, tid, exclude, env).m, spared, quiet)
  {
    hide KillAll;
    hide WaitAll;
    hide ReapAll;
    hide AllFine;
    hide AllExcused;
    var s0 := Signalling(m, {}, []);
    KillAllSound(s0, SelectedSet(m, tid, exclude), env.kills, spared, quiet);
    KillAllQueue(s0, SelectedSet(m, tid, exclude), env.kills);
    var s := Signal(m, tid, exclude, env);
    var w := Waiting(s.m, s.queue, env.waits);
    WaitAllSound(w, spared, quiet);
    ReapAllSound(WaitAll(w).m, s.dead, spared, quiet);
  }

  // ---------------------------------------------------------------- thaw

  lemma WakeSound(s: Thawed, t: Tid, conts: map<Tid, ContResult>)
    requires Sound(s.m, {}, {}) && t in s.m.threads && !s.m.threads[t].gotPending
    requires s.m.threads[t].state in {Stopped, Dying}
    ensures Sound(Wake(s, t, conts).m, {}, {})
  {
    hide AllExcused;
    hide ThreadEvent;
    hide ContOf;
    hide Released;
    hide Enqueue;
    hide AllFine;
    hide Woken;
    hide SetThread;
    var m1 := SetThread(s.m, t, Woken(s.m.threads[t], ContOf(conts, t)));
    WokenSound(s.m, t, ContOf(conts, t));
    if ContOf(conts, t) == Resumed { LoggedSound(Released(m1, t), Wake(s, t, conts).m.resumed); }
    EnqueueSound(m1, ThreadEvent(m1, THREAD_EXIT, t), InBack, {}, {});
  }

  lemma LoggedSound(m: Machine, log: seq<Resumption>)
    requires Sound(m, {}, {})
    ensures Sound(m.(resumed := log), {}, {})
  {
  }

  lemma EnqueueSound(m: Machine, ev: Event, pos: QueuePos, spared: set<Tid>, quiet: set<Tid>)
    requires Sound(m, spared, quiet)
    ensures Sound(Enqueue(m, ev, pos), spared, quiet)
  {
    hide AllExcused;
    OtherSound(m, Enqueue(m, ev, pos), spared, quiet);
  }

  lemma WokenSound(m: Machine, t: Tid, cont: ContResult)
    requires Sound(m, {}, {}) && t in m.threads && !m.threads[t].gotPending && m.threads[t].state in {Stopped, Dying}
    ensures var m1 := SetThread(m, t, Woken(m.threads[t], cont));
            && Sound(m1, {}, {})
            && (cont == Resumed || m.threads[t].state == Dying ==> Sound(Released(m1, t), {}, {}))
  {
    hide AllExcused;
    var th := Woken(m.threads[t], cont);
    if th.state == Stopped && m.kernel.honest && !m.exited { FineAt(m, t, {}, {}); }
    SetThreadSound(m, t, th, {}, {});
    if th.state != Stopped { GoneSound(SetThread(m, t, th), t); }
  }

  lemma GoneSound(m: Machine, t: Tid)
    requires Sound(m, {}, {}) && t in m.threads && !m.threads[t].gotPending && m.threads[t].state != Stopped
    ensures Sound(Released(m, t), {}, {})
  {
  }

  lemma ThawOneSound(s: Thawed, t: Tid, conts: map<Tid, ContResult>)
    requires Sound(s.m, {}, {}) && t in s.m.threads
    ensures Sound(ThawOne(s, t, conts).m, {}, {})
  {
    hide Wake;
    hide AllExcused;
    var th := Relieved(s.m.threads[t]);
    SetThreadSound(s.m, t, th, {}, {});
    if !s.m.threads[t].IsRunning() && !Kept(s.m, th) {
      WakeSound(s.(m := SetThread(s.m, t, th)), t, conts);
    }
  }

  lemma ThawAllSound(s: Thawed, todo: set<Tid>, conts: map<Tid, ContResult>)
    requires Sound(s.m, {}, {}) && todo <= s.m.threads.Keys
    ensures Sound(ThawAll(s, todo, conts).m, {}, {})
    decreases |todo|
  {
    hide Sound;
    hide ThawOne;
    if todo != {} {
      var t := Least(todo);
      ThawOneSound(s, t, conts);
      ThawAllSound(ThawOne(s, t, conts), todo - {t}, conts);
    }
  }

  lemma ThawSound(m: Machine, tid: Tid, exclude: bool, conts: map<Tid, ContResult>)
    requires Sound(m, {}, {})
    ensures Sound(Thaw(m, tid, exclude, conts).m, {}, {})
  {
    ThawAllSound(Thawed(m, true), SelectedSet(m, tid, exclude), conts);
  }

  lemma ResumeAppSound(m: Machine, conts: map<Tid, ContResult>)
    requires Sound(m, {}, {})
    ensures Sound(ResumeApp(m, conts).m, {}, {})
  {
    hide Thaw;
    hide AllExcused;
    ThawSound(m.(mayRun := !HasPendingEvents(m)), NO_THREAD, true, conts);
  }

  lemma SettleThreadSound(m: Machine, ev: Event, conts: map<Tid, ContResult>)
    requires Sound(m, {}, {}) && ev.tid in m.threads
    ensures Sound(SettleThread(m, ev, conts), {}, {})
  {
    hide Thaw;
    hide AllExcused;
    hide KeepsSignal;
    hide DelThread;
    var t := ev.tid;
    var th := m.threads[t].(childSignum := if KeepsSignal(ev) then m.threads[t].childSignum else 0);
    var th' := th.(suspendCount := 0, userSuspend := 0);
    SetThreadSound(m, t, th, {}, {});
    SetThreadSound(m, t, th', {}, {});
    ThawSound(SetThread(m, t, th'), t, false, conts);
    DelThreadSound(SetThread(m, t, th), t, {}, {});
  }

  lemma ContinueAfterSound(m: Machine, ev: Option<Event>, conts: map<Tid, ContResult>)
    requires Sound(m, {}, {})
    ensures Sound(ContinueAfter(m, ev, conts).m, {}, {})
  {
    hide SettleThread;
    hide ResumeApp;
    hide AllExcused;
    if ev.Some? && MayContinue(m, ev.value) {
      if ev.value.tid in m.threads { SettleThreadSound(m, ev.value, conts); }
      var m1 := if ev.value.tid in m.threads then SettleThread(m, ev.value, conts) else m;
      ResumeAppSound(m1.(inEvent := false), conts);
    }
  }

  // ---------------------------------------------------------------- new threads

  lemma AwaitingSound(m: Machine, t: Tid, spared: set<Tid>, quiet: set<Tid>)
    requires Sound(m, spared, quiet) && t in m.threads
    ensures Sound(Awaiting(m, t), spared, quiet)
  {
    hide AllExcused;
    if m.kernel.honest && !m.exited { FineAt(m, t, spared, quiet); }
    SetThreadSound(m, t, m.threads[t].(waitingSigstop := true), spared, quiet);
  }

  // A new thread is sound once its SIGSTOP is awaited or was heard.
  lemma AwaitStopSound(m: Machine, t: Tid, waits: seq<Report>, spared: set<Tid>, quiet: set<Tid>)
    requires t in m.threads && Sound(Awaiting(m, t), spared, quiet)
    ensures Sound(AwaitStop(m, t, waits).m, spared, quiet)
  {
    hide StorePending;
    hide AllExcused;
    var r := NextReport(waits);
    var m1 := Awaiting(m, t);
    if r.pid == t && r.status.StoppedBy? && r.status.sig == SIGSTOP {
      FirstStopSound(m, t, r, spared, quiet);
    } else if r.pid > 0 {
      StoreSound(m1, r, spared, quiet);
    }
  }

  lemma FirstStopSound(m: Machine, t: Tid, r: Report, spared: set<Tid>, quiet: set<Tid>)
    requires t in m.threads && Sound(Awaiting(m, t), spared, quiet)
    requires r.pid == t && r.status.StoppedBy?
    ensures Sound(Heard(m, r), spared, quiet)
  {
    hide AllExcused;
    var m1 := Awaiting(m, t);
    HeardSound(m1, r, spared, quiet);
    if Heard(m, r).kernel.honest && !m.exited {
      FineAt(m1, t, spared, quiet);
      SetThreadSound(Heard(m1, r), t, m.threads[t], spared, quiet);
      assert SetThread(Heard(m1, r), t, m.threads[t]).threads == m.threads;
    }
  }

  lemma NewAwaiting(m: Machine, t: Tid)
    requires t !in m.threads
    ensures Awaiting(AddThread(m, t), t) == SetThread(m, t, NEW_THREAD.(waitingSigstop := true))
  {
    assert m.threads[t := NEW_THREAD][t := NEW_THREAD.(waitingSigstop := true)]
        == m.threads[t := NEW_THREAD.(waitingSigstop := true)];
  }

  lemma NewThreadSound(m: Machine, t: Tid, spared: set<Tid>, quiet: set<Tid>)
    requires Sound(m, spared, quiet) && quiet <= m.threads.Keys
    ensures Sound(Awaiting(AddThread(m, t), t), spared, quiet)
    ensures t in m.kernel.stopped ==> Sound(AddThread(m, t), spared, quiet)
  {
    hide AllExcused;
    hide AllFine;
    hide Awaiting;
    if t in m.threads {
      AwaitingSound(m, t, spared, quiet);
    } else {
      if t in m.kernel.stopped { SetThreadSound(m, t, NEW_THREAD, spared, quiet); }
      SetThreadSound(m, t, NEW_THREAD.(waitingSigstop := true), spared, quiet);
      NewAwaiting(m, t);
    }
  }

  lemma SideEffectSound(s: Stepped, step: SideStep, spared: set<Tid>, quiet: set<Tid>)
    requires Sound(s.m, spared, quiet) && quiet <= s.m.threads.Keys
    ensures Sound(SideEffect(s, step).m, spared, quiet)
  {
    hide AllExcused;
    hide AllFine;
    hide AwaitStop;
    hide DeadThread;
    hide Enqueue;
    match step
    case DropLoad(name) =>
      OtherSound(s.m, s.m.(events := DelPendingEvent(s.m.events, LIBRARY_LOAD, name)), spared, quiet);
    case Library(ev) => EnqueueSound(s.m, ev, InFront, spared, quiet);
    case Birth(t) => if t !in s.m.threads { BirthSound(s, t, spared, quiet); }
    case Death(t) => DeadThreadSound(s.m, t, Dying, spared, quiet);
  }

  lemma BirthSound(s: Stepped, t: Tid, spared: set<Tid>, quiet: set<Tid>)
    requires Sound(s.m, spared, quiet) && quiet <= s.m.threads.Keys && t !in s.m.threads
    ensures Sound(SideEffect(s, Birth(t)).m, spared, quiet)
  {
    hide AllExcused;
    hide AllFine;
    hide AwaitStop;
    var m1 := AddThread(s.m, t);
    var m2 := Enqueue(m1, ThreadEvent(s.m, THREAD_START, t), InFront);
    NewThreadSound(s.m, t, spared, quiet);
    OtherSound(Awaiting(m1, t), Awaiting(m2, t), spared, quiet);
    AwaitStopSound(m2, t, s.waits, spared, quiet);
  }

  lemma SideEffectsSound(s: Stepped, steps: seq<SideStep>, spared: set<Tid>, quiet: set<Tid>)
    requires Sound(s.m, spared, quiet) && quiet <= s.m.threads.Keys
    ensures Sound(SideEffects(s, steps).m, spared, quiet)
    decreases |steps|
  {
    hide Sound;
    hide SideEffect;
    if steps != [] {
      SideEffectSound(s, steps[0], spared, quiet);
      SideEffectsSound(SideEffect(s, steps[0]), steps[1..], spared, quiet);
    }
  }

  lemma HandleExtendedWaitSound(m: Machine, r: Report, waits: seq<Report>, quiet: set<Tid>)
    requires Sound(m, {}, quiet) && quiet <= m.threads.Keys
    ensures Sound(HandleExtendedWait(m, r, waits).m, {}, quiet)
  {
    hide AllExcused;
    hide AllFine;
    hide AwaitStop;
    hide Enqueue;
    hide AddThread;
    if r.status.StoppedBy? && r.status.clone.Some? {
      var t := r.status.clone.value;
      var m1 := AddThread(m, t);
      NewThreadSound(m, t, {}, quiet);
      AwaitStopSound(m1, t, waits, {}, quiet);
      SeenSound(m, t, quiet);
      var s := if t in m1.seen then Stepped(ForgetSeen(m1, t), waits) else AwaitStop(m1, t, waits);
      EnqueueSound(s.m, ThreadEvent(s.m, THREAD_START, t), InFront, {}, quiet);
    }
  }

  lemma SeenSound(m: Machine, t: Tid, quiet: set<Tid>)
    requires t in m.kernel.stopped ==> Sound(AddThread(m, t), {}, quiet)
    ensures Sound(ForgetSeen(AddThread(m, t), t), {}, quiet)
  {
    hide AllExcused;
    var m1 := AddThread(m, t);
    assert m1.kernel == m.kernel;
    if t in m.kernel.stopped {
      assert Trusted(m1, true) == m1;
      OtherSound(m1, ForgetSeen(m1, t), {}, quiet);
    }
  }

  // ---------------------------------------------------------------- looking for a status

  // A thread whose status is chosen: the kernel holds it, and if the status is a stop, it has
  // no other stop pending, and its SIGSTOP is awaited if it is taken for stopped already.
  predicate Chosen(m: Machine, r: Report) {
    m.kernel.honest && !m.exited && r.pid in m.threads ==>
      var th := m.threads[r.pid];
      && r.pid in m.kernel.stopped
      && (r.status.StoppedBy? ==> !StopPending(th) && (th.state == Stopped ==> th.waitingSigstop))
  }

  // What storing a report does to a thread that the kernel holds.
  lemma StoreHeld(m: Machine, r: Report, t: Tid)
    requires t in m.threads && t in m.kernel.stopped
    ensures var z := StorePending(Heard(m, r), r.pid, r.status);
            z.kernel.honest ==>
              t in z.kernel.stopped && z.threads[t].state == m.threads[t].state
              && (m.threads[t].waitingSigstop ==> z.threads[t].waitingSigstop)
              && (StopPending(z.threads[t]) ==> StopPending(m.threads[t]))
  {
    hide StorePending;
    StoreKernel(Heard(m, r), r.pid, r.status);
  }

  lemma StoreKernel(m: Machine, pid: Tid, status: WaitStatus)
    ensures var z := StorePending(m, pid, status);
            && z.kernel.honest == m.kernel.honest && z.exited == m.exited
            && z.kernel.stopped == (if pid !in m.threads
                && pid in m.deleted then m.kernel.stopped - {pid} else m.kernel.stopped)
  {
    hide Stored;
    hide NoneLost;
    hide Asserted;
    if pid in m.threads {
      var n := NoneLost(m, pid, status);
      assert n.kernel == m.kernel.(broken := n.kernel.broken) && n.exited == m.exited;
    }
  }

  lemma AwaitingKeeps(m: Machine, u: Tid, t: Tid)
    requires u in m.threads && t in m.threads
    ensures var th := Awaiting(m, u).threads[t];
            && Awaiting(m, u).kernel == m.kernel && th.state == m.threads[t].state
                && StopPending(th) == StopPending(m.threads[t])
            && (m.threads[t].waitingSigstop ==> th.waitingSigstop)
  {
  }

  lemma HeardHeld(m: Machine, r: Report, t: Tid)
    requires t in m.threads && t in m.kernel.stopped
    ensures t in Heard(m, r).kernel.stopped && Heard(m, r).threads == m.threads
    ensures r.pid == t && r.status.StoppedBy? ==> !Heard(m, r).kernel.honest
  {
  }

  lemma AwaitStopHeld(m: Machine, u: Tid, waits: seq<Report>, t: Tid)
    requires u in m.threads && t in m.threads && t in m.kernel.stopped
    ensures var z := AwaitStop(m, u, waits).m;
            z.kernel.honest ==>
              t in z.kernel.stopped && z.threads[t].state == m.threads[t].state
              && (m.threads[t].waitingSigstop ==> z.threads[t].waitingSigstop)
              && (StopPending(z.threads[t]) ==> StopPending(m.threads[t]))
  {
    hide StorePending;
    hide StopPending;
    hide Awaiting;
    hide Heard;
    var m1, r := Awaiting(m, u), NextReport(waits);
    AwaitingKeeps(m, u, t);
    StoreHeld(m1, r, t);
    HeardHeld(m, r, t);
  }

  lemma HonestBefore(m: Machine, r: Report, waits: seq<Report>)
    ensures HandleExtendedWait(m, r, waits).m.kernel.honest ==> m.kernel.honest
    ensures HandleExtendedWait(m, r, waits).m.exited == m.exited
  {
    hide Enqueue;
    if r.status.StoppedBy? && r.status.clone.Some? {
      AwaitStopHonest(AddThread(m, r.status.clone.value), r.status.clone.value, waits);
    }
  }

  lemma AwaitStopHonest(m: Machine, t: Tid, waits: seq<Report>)
    requires t in m.threads
    ensures AwaitStop(m, t, waits).m.kernel.honest ==> m.kernel.honest
    ensures AwaitStop(m, t, waits).m.exited == m.exited
  {
    hide StorePending;
    var r := NextReport(waits);
    StoreKernel(Heard(Awaiting(m, t), r), r.pid, r.status);
  }

  lemma ExtendedChosen(m: Machine, r: Report, waits: seq<Report>)
    requires Chosen(m, r) && r.pid in m.threads
    ensures Chosen(HandleExtendedWait(m, r, waits).m, r)
  {
    hide AwaitStop;
    hide Enqueue;
    hide ForgetSeen;
    hide StopPending;
    HonestBefore(m, r, waits);
    if r.status.StoppedBy? && r.status.sig == SIGTRAP && r.status.clone.Some? && m.kernel.honest && !m.exited {
      var t := r.status.clone.value;
      var m1 := AddThread(m, t);
      assert m1.threads[r.pid] == m.threads[r.pid] && m1.kernel == m.kernel;
      AwaitStopHeld(m1, t, waits, r.pid);
      ForgetHeld(m1, t);
      var s := if t in m1.seen then Stepped(ForgetSeen(m1, t), waits) else AwaitStop(m1, t, waits);
      var z := Enqueue(s.m, ThreadEvent(s.m, THREAD_START, t), InFront);
      assert z.threads == s.m.threads && z.kernel == s.m.kernel && z.exited == s.m.exited;
      assert HandleExtendedWait(m, r, waits).m == z;
    }
  }

  lemma ForgetHeld(m: Machine, t: Tid)
    ensures var z := ForgetSeen(m, t); z.threads == m.threads && z.kernel.stopped == m.kernel.stopped
  {
  }

  lemma RetrievedSound(m: Machine)
    requires Sound(m, {}, {})
    ensures var (m1, p) := RetrievePending(m);
            Sound(m1, {}, {}) && (p.Some? ==> p.value.pid in m1.threads && Chosen(m1, p.value))
  {
    hide AllExcused;
    var p := PickPending(m);
    if p.Some? && p.value in m.threads {
      var th := m.threads[p.value];
      if m.kernel.honest && !m.exited { FineAt(m, p.value, {}, {}); }
      SetThreadSound(m, p.value, th.(gotPending := false), {}, {});
      if DeliverableSet(m) != {} { assert Least(DeliverableSet(m)) in DeliverableSet(m); }
      assert th.Deliverable();
    }
  }

  lemma HeardChosen(m: Machine, r: Report)
    requires Sound(m, {}, {})
    ensures Chosen(Heard(m, r), r)
  {
    hide AllExcused;
    if Heard(m, r).kernel.honest && !m.exited && r.pid in m.threads { FineAt(m, r.pid, {}, {}); }
  }

  // What looking for a new status leaves, and what it finds.
  predicate Found(c: Checked) {
    Sound(c.m, {}, {}) && (c.found.Some? ==> Chosen(c.m, c.found.value))
    && (c.found.Some? && c.prepared ==> c.found.value.status.StoppedBy?)
  }

  lemma CheckNewEventsSound(m: Machine, waits: seq<Report>, noTimeout: bool)
    requires Sound(m, {}, {})
    ensures Found(CheckNewEvents(m, waits, noTimeout))
    decreases |waits|, 0
  {
    hide Sound;
    hide Chosen;
    hide RetrievePending;
    hide HandleExtendedWait;
    var r0 := NextReport(waits);
    var w0 := Rest(waits);
    if r0.pid > 0 {
      TakeReportSound(m, r0, w0);
    } else {
      RetrievedSound(m);
      var (m1, pending) := RetrievePending(m);
      if pending.Some? {
        HandleExtendedWaitSound(m1, pending.value, w0, {});
        ExtendedChosen(m1, pending.value, w0);
        PreparedStops(m1, pending.value, w0);
      } else if !noTimeout && NextReport(w0).pid > 0 {
        TakeReportSound(m1, NextReport(w0), Rest(w0));
      }
    }
  }

  lemma PreparedStops(m: Machine, r: Report, waits: seq<Report>)
    ensures HandleExtendedWait(m, r, waits).prepared ==> r.status.StoppedBy?
  {
  }

  lemma TakeReportSound(m: Machine, r: Report, waits: seq<Report>)
    requires Sound(m, {}, {})
    ensures Found(TakeReport(m, r, waits))
    decreases |waits|, 1
  {
    hide Sound;
    hide Chosen;
    hide Heard;
    hide Released;
    hide HandleExtendedWait;
    hide StorePending;
    var m0 := Heard(m, r);
    HeardSound(m, r, {}, {});
    HeardChosen(m, r);
    HandleExtendedWaitSound(m0, r, waits, {});
    PreparedStops(m0, r, waits);
    var x := HandleExtendedWait(m0, r, waits);
    if r.pid in x.m.threads {
      TakenChosen(m, r, waits);
    } else {
      ReleasedSound(x.m, r.pid, {}, {});
      StoreUnknownSound(x.m, r);
      var m1 := if r.pid in x.m.deleted then Released(x.m, r.pid) else StorePending(x.m, r.pid, r.status);
      CheckNewEventsSound(m1, x.waits, true);
    }
  }

  lemma StoreUnknownSound(m: Machine, r: Report)
    requires Sound(m, {}, {}) && r.pid !in m.threads
    ensures Sound(StorePending(m, r.pid, r.status), {}, {})
  {
    hide AllExcused;
    ReleasedSound(m, r.pid, {}, {});
  }

  lemma TakenChosen(m: Machine, r: Report, waits: seq<Report>)
    requires Chosen(Heard(m, r), r)
    ensures Chosen(HandleExtendedWait(Heard(m, r), r, waits).m, r)
  {
    hide AwaitStop;
    hide Enqueue;
    hide ForgetSeen;
    var m0 := Heard(m, r);
    HonestBefore(m0, r, waits);
    if r.pid in m.threads {
      ExtendedChosen(m0, r, waits);
    } else if m0.kernel.honest && r.status.StoppedBy? {
      assert r.status.clone != Some(r.pid);
      StrangerStays(m0, r, waits);
    }
  }

  lemma StrangerStays(m: Machine, r: Report, waits: seq<Report>)
    requires r.pid !in m.threads && r.status.StoppedBy? && r.status.clone != Some(r.pid)
    ensures r.pid !in HandleExtendedWait(m, r, waits).m.threads
  {
    hide AwaitStop;
    hide Enqueue;
    hide AddThread;
    hide ForgetSeen;
    if r.status.clone.Some? { ForgetHeld(AddThread(m, r.status.clone.value), r.status.clone.value); }
  }

  // ---------------------------------------------------------------- events

  // Assertion 30057 keeps the log as it has to be.
  lemma NotStoppedSound(m: Machine, r: Report)
    requires Sound(m, {}, {}) && r.pid in m.threads && Chosen(m, r)
    ensures Sound(NotStopped(m, r), {}, {})
  {
    var claim := Broken(30057, m.threads[r.pid], r.status);
    assert m.kernel.honest && AllExcused(m.kernel.broken) && Excused(claim) ==> AllExcused(m.kernel.broken + [claim]);
  }

  // The chosen thread is stopped: after a stop it is quiet, after its end it is spared.
  lemma HaltSound(m: Machine, r: Report, env: Env)
    requires Sound(m, {}, {}) && r.pid in m.threads && Chosen(m, r)
    ensures var f := Halt(m, r.pid, env);
            Sound(f.m, if r.status.StoppedBy? then {} else {r.pid}, if r.status.StoppedBy? then {r.pid} else {})
  {
    hide AllExcused;
    hide Freeze;
    var t := r.pid;
    var spared := if r.status.StoppedBy? then {} else {t};
    var quiet := if r.status.StoppedBy? then {t} else {};
    var m1 := SetThread(m, t, m.threads[t].(state := Stopped));
    assert Sound(m1, spared, quiet);
    FreezeSound(m1, NO_THREAD, true, env, spared, quiet);
    FreezeKeepsStopped(m1, NO_THREAD, true, env, t);
  }

  lemma SilentlySound(m: Machine, ev: Event, conts: map<Tid, ContResult>)
    requires Sound(m, {}, {})
    ensures Sound(Silently(m, ev, conts).m, {}, {})
  {
    hide Sound;
    hide ResumeApp;
    ResumeAppSound(m, conts);
  }

  lemma ReadySound(m: Machine, t: Tid, ev: Event)
    requires Sound(m, {}, {})
    ensures Sound(Ready(m, t, ev).m, {}, {})
  {
    hide AllExcused;
    if t in m.threads {
      if m.kernel.honest && !m.exited { FineAt(m, t, {}, {}); }
      SetThreadSound(m, t, m.threads[t].(singleStep := false), {}, {});
    }
  }

  lemma DeliverSound(m: Machine, t: Tid, code: nat, suspend: bool, ev: Event, conts: map<Tid, ContResult>)
    requires Sound(m, {}, {}) && t in m.threads
    ensures Sound(Deliver(m, t, code, suspend, ev, conts).m, {}, {})
  {
    hide AllExcused;
    hide Silently;
    hide Ready;
    if m.kernel.honest && !m.exited { FineAt(m, t, {}, {}); }
    var m1 := SetThread(m, t, m.threads[t].(childSignum := code));
    SetThreadSound(m, t, m.threads[t].(childSignum := code), {}, {});
    SilentlySound(m1, ev, conts);
    ReadySound(m1, t, ev);
  }

  lemma BptEventSound(m: Machine, m1: Machine, t: Tid, ea: word, suspend: bool, code: nat, ev: Event, rd: Round)
    requires Sound(m, {}, {}) && Sound(m1, {}, {}) && t in m1.threads
    ensures Sound(BptEvent(m, m1, t, ea, suspend, code, ev, rd).m, {}, {})
  {
    hide Sound;
    hide Silently;
    hide Deliver;
    var conts := rd.env.conts;
    SilentlySound(m1, ev, conts);
    DeliverSound(m1, t, 0, suspend, ev.(eid := NO_EVENT), conts);
    match rd.cause
    case LibraryBpt(_, _) =>
    case ThreadBpt(_, _) =>
    case UserBpt(_, kind) =>
      match kind
      case Hardware(hea) =>
        DeliverSound(m1, t, 0, suspend, ev.(eid := BREAKPOINT, payload := Bpt(hea, BADADDR)), conts);
      case Software =>
        DeliverSound(m1, t, 0, suspend, ev.(eid := BREAKPOINT, ea := ea, payload := Bpt(BADADDR, BADADDR)), conts);
      case Unknown =>
        DeliverSound(m1, t, 0, suspend, ev.(eid := STEP), conts);
        DeliverSound(m1, t, code, suspend, ev, conts);
  }

  lemma QuietSound(m: Machine, t: Tid)
    requires Sound(m, {}, {t}) && t in m.threads
    ensures Sound(SetThread(m, t, m.threads[t].(waitingSigstop := false)), {}, {})
  {
    hide AllExcused;
    if m.kernel.honest && !m.exited { FineAt(m, t, {}, {t}); }
    WeakerSound(m, {}, {t});
    SetThreadSound(m, t, m.threads[t].(waitingSigstop := false), {}, {});
  }

  lemma StopEventSound(m: Machine, t: Tid, sig: nat, rd: Round, waits: seq<Report>, base: Event)
    requires Sound(m, {}, {t}) && t in m.threads
    ensures Sound(StopEvent(m, t, sig, rd, waits, base).m, {}, {})
  {
    hide Sound;
    hide Silently;
    hide BptEvent;
    hide Deliver;
    hide BptAddress;
    hide SideEffects;
    var conts := rd.env.conts;
    var ev := base.(eid := EXCEPTION, payload := Exc(ExceptionInfo(sig % TWO_32, true, BADADDR, [])));
    QuietSound(m, t);
    SilentlySound(SetThread(m, t, m.threads[t].(waitingSigstop := false)), ev, conts);
    WeakerSound(m, {}, {t});
    SideEffectsSound(Stepped(m, waits), rd.cause.steps, {}, {});
    if !(sig == SIGSTOP && m.threads[t].waitingSigstop) {
      var known := sig in m.exceptions;
      var suspend := known ==> m.exceptions[sig].breakOn;
      var masked := known && m.exceptions[sig].handle;
      var ea := BptAddress(m.arm, sig, base.ea);
      var m1 := SideEffects(Stepped(m, waits), rd.cause.steps).m;
      BptEventSound(m, m1, t, ea, suspend, if masked then 0 else sig, ev, rd);
      DeliverSound(m, t, if !suspend && masked then 0 else sig, suspend, ev, conts);
    }
  }

  lemma ExitEventSound(m: Machine, t: Tid, status: WaitStatus, base: Event)
    requires Sound(m, {t}, {}) && t in m.threads
    ensures Sound(ExitEvent(m, t, status, base).m, {}, {})
  {
    hide AllExcused;
    hide DeadThread;
    hide Ready;
    var code := match status case Signaled(sig) => sig case Exited(c) => c case _ => 0;
    var ev := base.(payload := ExitCode(code));
    if |m.threads| <= 1 || Some(t) == m.process {
      ReadySound(m.(exited := true), t, ev.(eid := PROCESS_EXIT));
    } else {
      DeadThreadSound(m, t, Dead, {t}, {});
      assert {t} - {t} == {};
      ReadySound(DeadThread(m, t, Dead), t, ev.(eid := NO_EVENT));
    }
  }

  lemma GetDebugEventSound(m: Machine, rd: Round)
    requires Sound(m, {}, {})
    ensures Sound(GetDebugEvent(m, rd).m, {}, {})
  {
    hide Sound;
    hide Chosen;
    hide CheckNewEvents;
    hide NotStopped;
    hide Halt;
    hide PrepareEvent;
    CheckNewEventsSound(m, rd.env.waits, rd.noTimeout);
    var c := CheckNewEvents(m, rd.env.waits, rd.noTimeout);
    if c.found.Some? && c.found.value.pid in c.m.threads {
      var r := c.found.value;
      var m1 := NotStopped(c.m, r);
      NotStoppedSound(c.m, r);
      NotStoppedChosen(c.m, r);
      var env := rd.env.(waits := c.waits);
      HaltSound(m1, r, env);
      var f := Halt(m1, r.pid, env);
      if f.done { PrepareEventSound(f.m, r, c.prepared, rd, f.waits); } else { HaltUndone(m1, r, env); }
    }
  }

  lemma NotStoppedChosen(m: Machine, r: Report)
    requires Chosen(m, r) && r.pid in m.threads
    ensures Chosen(NotStopped(m, r), r)
  {
  }

  // A freeze that waits for ever is the kernel's fault.
  lemma HaltUndone(m: Machine, r: Report, env: Env)
    requires r.pid in m.threads && !Halt(m, r.pid, env).done
    ensures Sound(Halt(m, r.pid, env).m, {}, {})
  {
    hide KillAll;
    hide WaitAll;
    hide ReapAll;
  }

  lemma PrepareEventSound(m: Machine, r: Report, prepared: bool, rd: Round, waits: seq<Report>)
    requires Sound(m, if r.status.StoppedBy? then {} else {r.pid}, if r.status.StoppedBy? then {r.pid} else {})
    requires r.pid in m.threads && (prepared ==> r.status.StoppedBy?)
    ensures Sound(PrepareEvent(m, r, prepared, rd, waits).m, {}, {})
  {
    hide Sound;
    hide Ready;
    hide StopEvent;
    hide ExitEvent;
    var base := Event(NO_EVENT, ProcessId(m), r.pid, if m.exited then BADADDR else rd.ip, false, NoPayload);
    if r.status.StoppedBy? {
      WeakerSound(m, {}, {r.pid});
      ReadySound(m, r.pid, Event(NO_EVENT, 0, NO_THREAD, 0, false, NoPayload));
      StopEventSound(m, r.pid, r.status.sig, rd, waits, base);
    } else {
      ExitEventSound(m, r.pid, r.status, base);
    }
  }

  lemma FetchEventSound(m: Machine, rounds: seq<Round>)
    requires Sound(m, {}, {})
    ensures Sound(FetchEvent(m, rounds).m, {}, {})
    decreases |rounds|
  {
    hide AllExcused;
    hide AllFine;
    hide GetDebugEvent;
    hide Enqueue;
    if m.events == [] && rounds != [] {
      GetDebugEventSound(m, rounds[0]);
      var g := GetDebugEvent(m, rounds[0]);
      if g.ev.Some? {
        EnqueueSound(g.m, g.ev.value, InBack, {}, {});
        FetchEventSound(Enqueue(g.m, g.ev.value, InBack), rounds[1..]);
      }
    } else if m.events != [] {
      OtherSound(m, FetchEvent(m, rounds).m, {}, {});
    }
  }

  // ---------------------------------------------------------------- the other requests

  lemma AccessMemorySound(m: Machine, env: Env)
    requires Sound(m, {}, {})
    ensures Sound(AccessMemory(m, env), {}, {})
  {
    hide Sound;
    hide Freeze;
    hide Thaw;
    FreezeSound(m, NO_THREAD, true, env, {}, {});
    ThawSound(Freeze(m, NO_THREAD, true, env).m, NO_THREAD, true, env.conts);
  }

  lemma AccessAllSound(m: Machine, envs: seq<Env>)
    requires Sound(m, {}, {})
    ensures Sound(AccessAll(m, envs), {}, {})
    decreases |envs|
  {
    hide Sound;
    hide AccessMemory;
    if envs != [] {
      AccessMemorySound(m, envs[0]);
      AccessAllSound(AccessMemory(m, envs[0]), envs[1..]);
    }
  }

  // Suspension counts, single stepping and awaited stops.
  lemma AdjustSound(m: Machine, t: Tid, th: Thread)
    requires Sound(m, {}, {}) && t in m.threads
    requires th.gotPending == m.threads[t].gotPending && th.pendingStatus == m.threads[t].pendingStatus
    requires th.state == m.threads[t].state && (m.threads[t].waitingSigstop ==> th.waitingSigstop)
    ensures Sound(SetThread(m, t, th), {}, {})
  {
    hide AllExcused;
    if m.kernel.honest && !m.exited { FineAt(m, t, {}, {}); }
    SetThreadSound(m, t, th, {}, {});
  }

  lemma SuspendThreadSound(m: Machine, t: Tid, env: Env)
    requires Sound(m, {}, {})
    ensures Sound(SuspendThread(m, t, env), {}, {})
  {
    hide Sound;
    hide Freeze;
    FreezeSound(m, t, false, env, {}, {});
    var f := Freeze(m, t, false, env);
    if t in f.m.threads { AdjustSound(f.m, t, f.m.threads[t].(userSuspend := f.m.threads[t].userSuspend + 1)); }
  }

  lemma ContinueThreadSound(m: Machine, t: Tid, conts: map<Tid, ContResult>)
    requires Sound(m, {}, {})
    ensures Sound(ContinueThread(m, t, conts), {}, {})
  {
    hide Sound;
    hide Thaw;
    hide SetThread;
    if t in m.threads {
      var th := m.threads[t];
      if th.userSuspend > 1 { AdjustSound(m, t, th.(userSuspend := th.userSuspend - 1)); }
      AdjustSound(m, t, th.(userSuspend := 0));
      ThawSound(SetThread(m, t, th.(userSuspend := 0)), t, false, conts);
    }
  }

  lemma PauseProcessSound(m: Machine)
    requires Sound(m, {}, {})
    ensures Sound(PauseProcess(m), {}, {})
  {
    hide AllExcused;
    if m.threads.Keys != {} {
      var t := Least(m.threads.Keys);
      AdjustSound(m, t, m.threads[t].(waitingSigstop := true));
    }
  }

  // Once the process has been killed only the log matters.
  lemma SlayAllLogs(s: Thawed, todo: set<Tid>, failed: set<Tid>)
    requires todo <= s.m.threads.Keys
    ensures SlayAll(s, todo, failed).m.kernel.broken == s.m.kernel.broken
    ensures SlayAll(s, todo, failed).m.kernel.honest == s.m.kernel.honest
    decreases |todo|
  {
    if todo != {} {
      var t := Least(todo);
      SlayAllLogs(SlayOne(s, t, failed), todo - {t}, failed);
    }
  }

  lemma ExitProcessSound(m: Machine, env: Env, failed: set<Tid>)
    requires Sound(m, {}, {})
    ensures Sound(ExitProcess(m, env, failed), {}, {})
  {
    hide AllExcused;
    hide AllFine;
    hide Freeze;
    hide SlayAll;
    FreezeSound(m, NO_THREAD, true, env, {}, {});
    var f := Freeze(m, NO_THREAD, true, env);
    if f.done { SlayAllLogs(Thawed(f.m, true), f.m.threads.Keys, failed); }
  }

  lemma DetachSound(m: Machine, ok: bool)
    requires Sound(m, {}, {})
    ensures Sound(Detach(m, ok), {}, {})
  {
    hide AllExcused;
  }

  lemma StartProcessSound(m: Machine, pid: Tid, hasMaps: bool, steps: seq<SideStep>, attach: bool)
    requires Sound(m, {}, {})
    ensures Sound(StartProcess(m, pid, hasMaps, steps, attach), {}, {})
  {
    hide AllExcused;
    hide SideEffects;
    hide Enqueue;
    var m0 := m.(deleted := [], process := Some(pid), kernel := m.kernel.(stopped := m.kernel.stopped + {pid}));
    assert Sound(m0, {}, {});
    NewThreadSound(m0, pid, {}, {});
    var m1 := AddThread(m0, pid).(mayRun := false);
    OtherSound(AddThread(m0, pid), m1, {}, {});
    SideEffectsSound(Stepped(m1, []), steps, {}, {});
    var m2 := SideEffects(Stepped(m1, []), steps).m;
    var ev := Event(PROCESS_START, pid, pid, BADADDR, true, NoPayload);
    EnqueueSound(m2, ev, InBack, {}, {});
    EnqueueSound(Enqueue(m2, ev, InBack), ev.(eid := PROCESS_ATTACH), InBack, {}, {});
  }

  lemma ReconnectSound(m: Machine, pid: Tid, envs: seq<Env>, hasMaps: bool,
                       steps: seq<SideStep>, libraries: seq<SideStep>)
    requires Sound(m, {}, {})
    ensures Sound(Reconnect(m, pid, envs, hasMaps, steps, libraries), {}, {})
  {
    hide Sound;
    hide StartProcess;
    hide AccessAll;
    hide SideEffects;
    var m0 := m.(inEvent := false);
    OtherSound(m, m0, {}, {});
    AccessAllSound(m0, envs);
    StartProcessSound(AccessAll(m0, envs), pid, hasMaps, steps, true);
    SideEffectsSound(Stepped(StartProcess(AccessAll(m0, envs), pid, hasMaps, steps, true), []), libraries, {}, {});
  }

  lemma TerminateSound(m: Machine, env: Env, failed: set<Tid>)
    requires Sound(m, {}, {})
    ensures Sound(Terminate(m, env, failed), {}, {})
  {
    hide AllExcused;
    hide ExitProcess;
    ExitProcessSound(m, env, failed);
  }

  lemma ApplySound(m: Machine, op: Op)
    requires Sound(m, {}, {})
    ensures Sound(Apply(m, op), {}, {})
  {
    hide Sound;
    hide FetchEvent;
    hide ContinueAfter;
    hide AccessMemory;
    hide SuspendThread;
    hide ContinueThread;
    hide SetThread;
    hide PauseProcess;
    hide ExitProcess;
    hide Detach;
    hide StartProcess;
    hide Reconnect;
    hide SideEffects;
    hide Terminate;
    match op
    case OpFetch(rounds) => FetchEventSound(m, rounds);
    case OpContinue(ev, conts) => ContinueAfterSound(m, ev, conts);
    case OpAccessMemory(env) => AccessMemorySound(m, env);
    case OpSuspendThread(t, env) => SuspendThreadSound(m, t, env);
    case OpContinueThread(t, conts) => ContinueThreadSound(m, t, conts);
    case OpResumeMode(t, into) => if t in m.threads { AdjustSound(m, t, m.threads[t].(singleStep := true)); }
    case OpPause => PauseProcessSound(m);
    case OpExit(env, failed) => ExitProcessSound(m, env, failed);
    case OpDetach(ok) => DetachSound(m, ok);
    case OpStart(pid, hasMaps, steps, attach) => StartProcessSound(m, pid, hasMaps, steps, attach);
    case OpReconnect(pid, envs, hasMaps, steps, libraries) => ReconnectSound(m, pid, envs, hasMaps, steps, libraries);
    case OpLibraries(steps, waits) => SideEffectsSound(Stepped(m, waits), steps, {}, {});
    case OpExceptions(table) => OtherSound(m, m.(exceptions := table), {}, {});
    case OpTerminate(env, failed) => TerminateSound(m, env, failed);
  }

  lemma {:induction false} RunSound(m: Machine, ops: seq<Op>)
    requires Sound(m, {}, {})
    ensures Sound(Run(m, ops), {}, {})
    decreases |ops|
  {
    hide Sound;
    hide Apply;
    if ops != [] {
      ApplySound(m, ops[0]);
      RunSound(Apply(m, ops[0]), ops[1..]);
    }
  }

  /** Over every run of requests in which the kernel keeps its contract: 30057 fails only for
      a thread taken for stopped whose SIGSTOP is still awaited and that reports another
      stop or that SIGSTOP, and 30185 only for a thread with a pending status that is
      killed by a signal. */
  lemma AssertionsExcused(arm: bool, ops: seq<Op>)
    ensures var k := Run(Initial(arm), ops).kernel;
            k.honest ==> forall b :: b in k.broken ==>
              && (b.number == 30057 ==> b.th.state == Stopped && b.th.waitingSigstop && b.status.StoppedBy?)
              && (b.number == 30185 ==> b.th.gotPending && b.status.Signaled?)
  {
    RunSound(Initial(arm), ops);
  }

  /** When a pass of get_debug_event fails 30057, with the contract kept until then. */
  lemma NotStoppedIff(arm: bool, ops: seq<Op>, rd: Round)
    ensures var m := Run(Initial(arm), ops);
            var c := CheckNewEvents(m, rd.env.waits, rd.noTimeout);
            c.found.Some? && c.found.value.pid in c.m.threads && c.m.kernel.honest && !c.m.exited ==>
              var th := c.m.threads[c.found.value.pid];
              NotStopped(c.m, c.found.value) != c.m
              <==> th.state == Stopped && th.waitingSigstop && c.found.value.status.StoppedBy?
  {
    var m := Run(Initial(arm), ops);
    RunSound(Initial(arm), ops);
    CheckNewEventsSound(m, rd.env.waits, rd.noTimeout);
    var c := CheckNewEvents(m, rd.env.waits, rd.noTimeout);
    if c.found.Some? && c.found.value.pid in c.m.threads { BrokenGrows(c.m, c.found.value); }
  }

  lemma BrokenGrows(m: Machine, r: Report)
    requires r.pid in m.threads
    ensures NotStopped(m, r) != m <==> m.threads[r.pid].state == Stopped && !m.exited && r.status.StoppedBy?
  {
    var claim := Broken(30057, m.threads[r.pid], r.status);
    assert |m.kernel.broken + [claim]| > |m.kernel.broken|;
  }

  /** When storing a report fails 30185, with the contract kept. */
  lemma NoneLostIff(arm: bool, ops: seq<Op>, r: Report)
    ensures var m := Run(Initial(arm), ops);
            r.pid in m.threads && Heard(m, r).kernel.honest && !m.exited ==>
              (NoneLost(Heard(m, r), r.pid, r.status) != Heard(m, r)
               <==> m.threads[r.pid].gotPending && r.status.Signaled?)
  {
    var m := Run(Initial(arm), ops);
    RunSound(Initial(arm), ops);
    if r.pid in m.threads && Heard(m, r).kernel.honest && !m.exited {
      FineAt(m, r.pid, {}, {});
      var h := Heard(m, r);
      var claim := Broken(30185, h.threads[r.pid], r.status);
      assert |h.kernel.broken + [claim]| > |h.kernel.broken|;
    }
  }

  // ---------------------------------------------------------------- how they fail

  lemma RunOne(arm: bool, op: Op)
    ensures Run(Initial(arm), [op]) == Apply(Initial(arm), op)
  {
    assert Run(Apply(Initial(arm), op), []) == Apply(Initial(arm), op);
  }

  // A thread that has just been added and whose first stop has not come yet.
  const FRESH := NEW_THREAD.(waitingSigstop := true)

  /** 30057 fails for a new thread whose first SIGSTOP comes late. */
  lemma LateStopFails(arm: bool)
    ensures var m := Run(Initial(arm), [OpLibraries([Birth(1)], [])]);
            var r := Report(1, StoppedBy(SIGSTOP, None));
            var c := CheckNewEvents(m, [r], true);
            && m.threads == map[1 := FRESH] && c.found == Some(r) && c.m.kernel.honest && !c.m.exited
            && 1 in c.m.threads && NotStopped(c.m, r).kernel.broken == [Broken(30057, FRESH, r.status)]
  {
    var op := OpLibraries([Birth(1)], []);
    RunOne(arm, op);
    var m0 := Initial(arm);
    var s1 := SideEffect(Stepped(m0, []), Birth(1));
    assert SideEffects(s1, []) == s1;
    assert Apply(m0, op) == s1.m;
    var r := Report(1, StoppedBy(SIGSTOP, None));
    assert HandleExtendedWait(Heard(s1.m, r), r, []) == Extended(Heard(s1.m, r), [], false);
    assert TakeReport(s1.m, r, []) == Checked(Heard(s1.m, r), [], Some(r), false);
  }

  lemma FirstBirth(m: Machine, r: Report, r2: Report)
    requires m.threads == map[] && m.kernel == Kernel({}, true, []) && !m.exited && r == Report(1, StoppedBy(11, None))
    ensures var s := SideEffect(Stepped(m, [r, r2]), Birth(1));
            && s.waits == [r2] && s.m.kernel == Kernel({1}, true, []) && !s.m.exited
            && s.m.threads == map[1 := FRESH.(gotPending := true, pendingStatus := r.status)]
  {
    hide StorePending;
    var m1 := Awaiting(Enqueue(AddThread(m, 1), ThreadEvent(m, THREAD_START, 1), InFront), 1);
    assert m1.threads == map[1 := FRESH];
    StoreNew(Heard(m1, r), 1, r.status);
  }

  lemma StoreNew(m: Machine, t: Tid, status: WaitStatus)
    requires t in m.threads && !m.threads[t].gotPending && !m.exited
    ensures StorePending(m, t, status).kernel == m.kernel && !StorePending(m, t, status).exited
  {
    hide Stored;
  }

  lemma SecondBirth(m: Machine, th: Thread, r: Report)
    requires m.threads == map[1 := th] && th.gotPending && m.kernel == Kernel({1}, true, []) && !m.exited
    requires r == Report(1, Signaled(9))
    ensures SideEffect(Stepped(m, [r]), Birth(2)).m.kernel == Kernel({1}, true, [Broken(30185, th, r.status)])
  {
    hide StorePending;
    var m1 := Awaiting(Enqueue(AddThread(m, 2), ThreadEvent(m, THREAD_START, 2), InFront), 2);
    assert m1.threads[1] == th && m1.kernel == m.kernel;
    var h := Heard(m1, r);
    assert h.kernel == m.kernel by { assert {1} + {1} == {1}; }
    StoreLost(h, th, r.status);
  }

  lemma StoreLost(m: Machine, th: Thread, status: WaitStatus)
    requires 1 in m.threads && m.threads[1] == th && th.gotPending && !m.exited && !status.Exited?
    ensures StorePending(m, 1, status).kernel == m.kernel.(broken := m.kernel.broken + [Broken(30185, th, status)])
  {
    hide Stored;
  }

  /** 30185 fails for a thread that is killed while its signal waits to be delivered. */
  lemma KilledPendingFails(arm: bool)
    ensures var stop, killed := StoppedBy(11, None), Signaled(9);
            var k := Run(Initial(arm), [OpLibraries([Birth(1), Birth(2)], [Report(1, stop), Report(1,
                killed)])]).kernel;
            k.honest && k.broken == [Broken(30185, FRESH.(gotPending := true, pendingStatus := stop), killed)]
  {
    hide SideEffect;
    hide Apply;
    var r1, r2 := Report(1, StoppedBy(11, None)), Report(1, Signaled(9));
    var m0 := Initial(arm);
    RunOne(arm, OpLibraries([Birth(1), Birth(2)], [r1, r2]));
    TwoSteps(m0, Birth(1), Birth(2), [r1, r2]);
    FirstBirth(m0, r1, r2);
    SecondBirth(SideEffect(Stepped(m0, [r1, r2]), Birth(1)).m, FRESH.(gotPending := true, pendingStatus := r1.status),
        r2);
  }

  lemma TwoSteps(m: Machine, a: SideStep, b: SideStep, waits: seq<Report>)
    ensures Apply(m, OpLibraries([a, b], waits)) == SideEffect(SideEffect(Stepped(m, waits), a), b).m
  {
    hide SideEffect;
    var s1 := SideEffect(Stepped(m, waits), a);
    assert [a, b][1..] == [b] && [b][1..] == [];
    assert SideEffects(SideEffect(s1, b), []) == SideEffect(s1, b);
    assert SideEffects(s1, [b]) == SideEffect(s1, b);
  }
}
