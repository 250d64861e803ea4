/** From the request for an event to the thread that is caught: looking for a status and
    freezing the threads change neither what the client has set nor how a thread was being
    run, so that what get_debug_event makes of a report can be told from the state before. */
module CaughtThreads {
  import opened DebugEvents
  import opened LeastElement
  import opened ThreadMachine
  import opened ThreadOps
  import opened FreezeNesting
  import opened SignalFlow
  import opened EventReports

  // The flags, the process, the exception table and the processor.
  predicate SameSetting(m: Machine, r: Machine) {
    && r.requestedToSuspend == m.requestedToSuspend && r.inEvent == m.inEvent && r.exited == m.exited
    && r.process == m.process && r.exceptions == m.exceptions && r.arm == m.arm && r.lastEvent == m.lastEvent
  }

  // And how t is run, as long as it is there.
  predicate Steady(m: Machine, r: Machine, t: Tid) {
    && SameSetting(m, r)
    && (t in m.threads && t in r.threads ==> SameMarks(m.threads[t], r.threads[t]))
  }

  lemma SteadyOn(m: Machine, r: Machine, z: Machine, t: Tid)
    requires Steady(m, r, t) && Steady(r, z, t) && (t in m.threads && t in z.threads ==> t in r.threads)
    ensures Steady(m, z, t)
  {
  }

  lemma SetSteady(m: Machine, u: Tid, th: Thread, t: Tid)
    requires u in m.threads ==> SameMarks(m.threads[u], th)
    ensures Steady(m, SetThread(m, u, th), t)
  {
  }

  lemma StoreSteady(m: Machine, r: Report, t: Tid)
    ensures Steady(m, StorePending(Heard(m, r), r.pid, r.status), t)
  {
    hide Asserted;
    hide Stored;
    var h := Heard(m, r);
    if r.pid in m.threads {
      StoredMarks(m.threads[r.pid], m.threads[r.pid], r.status);
      SetSteady(NoneLost(h, r.pid, r.status), r.pid, Stored(m.threads[r.pid], r.status), t);
    }
  }

  // ---------------------------------------------------------------- freezing

  lemma {:induction false} KillAllSteady(s: Signalling, todo: set<Tid>, kills: map<Tid, KillResult>, t: Tid)
    requires todo <= s.m.threads.Keys
    ensures Steady(s.m, KillAll(s, todo, kills).m, t)
    decreases |todo|
  {
    hide Signalled;
    if todo != {} {
      var u := Least(todo);
      SignalledMarks(s.m.threads[u], KillOf(kills, u));
      SetSteady(s.m, u, Signalled(s.m.threads[u], KillOf(kills, u)), t);
      KillAllSteady(KillOne(s, u, kills), todo - {u}, kills, t);
    }
  }

  lemma SignalledMarks(th: Thread, kill: KillResult)
    ensures SameMarks(th, Signalled(th, kill))
  {
  }

  lemma WaitOneSteady(w: Waiting, t: Tid)
    requires w.waits != [] && w.queue <= w.m.threads.Keys
    ensures Steady(w.m, WaitOne(w).m, t)
  {
    hide StorePending;
    var r := w.waits[0];
    StoreSteady(w.m, r, t);
    if r.pid in w.queue {
      SetSteady(Heard(w.m, r), r.pid, w.m.threads[r.pid].(waitingSigstop := false, state := Stopped), t);
    }
  }

  lemma {:induction false} WaitAllSteady(w: Waiting, t: Tid)
    requires w.queue <= w.m.threads.Keys
    ensures Steady(w.m, WaitAll(w).m, t)
    decreases |w.waits|
  {
    hide WaitOne;
    hide Steady;
    if w.queue != {} && w.waits != [] {
      WaitOneSteady(w, t);
      WaitAllSteady(WaitOne(w), t);
      SteadyOn(w.m, WaitOne(w).m, WaitAll(w).m, t);
    } else {
      SteadySelf(w.m, t);
    }
  }

  lemma SteadySelf(m: Machine, t: Tid)
    ensures Steady(m, m, t)
  {
  }

  lemma DeadSteady(m: Machine, u: Tid, t: Tid)
    ensures Steady(m, DeadThread(m, u, Dead), t)
  {
    hide SetThread;
    hide DelThread;
    if u in m.threads {
      var m1 := SetThread(m, u, m.threads[u].(state := Dead));
      SetSteady(m, u, m.threads[u].(state := Dead), t);
      DelSteady(Enqueue(m1, ThreadEvent(m, THREAD_EXIT, u), InBack), u, t);
    }
  }

  lemma DelSteady(m: Machine, u: Tid, t: Tid)
    requires u in m.threads
    ensures Steady(m, DelThread(m, u), t)
  {
  }

  lemma {:induction false} ReapSteady(m: Machine, dead: seq<Tid>, t: Tid)
    ensures Steady(m, ReapAll(m, dead), t)
    decreases |dead|
  {
    hide DeadThread;
    hide Steady;
    if dead != [] {
      var r := DeadThread(m, dead[0], Dead);
      DeadSteady(m, dead[0], t);
      ReapSteady(r, dead[1..], t);
      ReapAllRemoves(r, dead[1..], t);
      SteadyOn(m, r, ReapAll(m, dead), t);
    } else {
      SteadySelf(m, t);
    }
  }

  lemma FreezeSteady(m: Machine, tid: Tid, exclude: bool, env: Env, t: Tid)
    ensures Steady(m, Freeze(m, tid, exclude, env).m, t)
  {
    hide KillAll;
    hide WaitAll;
    hide ReapAll;
    hide SameSetting;
    var s0 := Signalling(m, {}, []);
    var todo := SelectedSet(m, tid, exclude);
    KillAllQueue(s0, todo, env.kills);
    KillAllSteady(s0, todo, env.kills, t);
    var s := Signal(m, tid, exclude, env);
    var w := WaitAll(Waiting(s.m, s.queue, env.waits));
    WaitAllSteady(Waiting(s.m, s.queue, env.waits), t);
    SteadyOn(m, s.m, w.m, t);
    ReapSteady(w.m, s.dead, t);
    ReapAllRemoves(w.m, s.dead, t);
    SteadyOn(m, w.m, ReapAll(w.m, s.dead), t);
    TrustSteady(m, w.m, t);
  }

  lemma TrustSteady(m: Machine, r: Machine, t: Tid)
    requires Steady(m, r, t)
    ensures Steady(m, Trusted(r, false), t)
  {
  }

  // ---------------------------------------------------------------- looking for a status

  // The thread stays in the table, too.
  predicate Stays(m: Machine, r: Machine, t: Tid) {
    Steady(m, r, t) && (t in m.threads ==> t in r.threads)
  }

  lemma StaysOn(m: Machine, r: Machine, z: Machine, t: Tid)
    requires Stays(m, r, t) && Stays(r, z, t) && t in m.threads
    ensures Stays(m, z, t)
  {
  }

  lemma StoreStays(m: Machine, r: Report, t: Tid)
    requires t in m.threads
    ensures Stays(m, StorePending(Heard(m, r), r.pid, r.status), t)
  {
    hide StorePending;
    StoreSteady(m, r, t);
  }

  lemma AwaitingStays(m: Machine, u: Tid, t: Tid)
    requires u in m.threads
    ensures Stays(m, Awaiting(m, u), t)
  {
  }

  lemma AwaitStays(m: Machine, u: Tid, waits: seq<Report>, t: Tid)
    requires u in m.threads && t in m.threads
    ensures Stays(m, AwaitStop(m, u, waits).m, t)
  {
    hide StorePending;
    hide Heard;
    hide Awaiting;
    hide Stays;
    var r := NextReport(waits);
    HeardStays(m, r, t);
    AwaitingStays(m, u, t);
    StaysThere(m, Awaiting(m, u), t);
    StoreStays(Awaiting(m, u), r, t);
    StaysOn(m, Awaiting(m, u), StorePending(Heard(Awaiting(m, u), r), r.pid, r.status), t);
  }

  lemma AddStays(m: Machine, u: Tid, t: Tid)
    requires t in m.threads
    ensures Stays(m, AddThread(m, u), t)
  {
  }

  lemma QueueStays(m: Machine, r: Machine, ev: Event, t: Tid)
    requires Stays(m, r, t)
    ensures Stays(m, Enqueue(r, ev, InFront), t)
  {
  }

  lemma ForgetStays(m: Machine, r: Machine, u: Tid, t: Tid)
    requires Stays(m, r, t)
    ensures Stays(m, ForgetSeen(r, u), t)
  {
  }

  lemma SelfStays(m: Machine, t: Tid)
    ensures Stays(m, m, t)
  {
  }

  lemma ExtendedStays(m: Machine, r: Report, waits: seq<Report>, t: Tid)
    requires t in m.threads
    ensures Stays(m, HandleExtendedWait(m, r, waits).m, t)
  {
    hide AwaitStop;
    hide AddThread;
    hide ForgetSeen;
    hide Enqueue;
    hide Stays;
    SelfStays(m, t);
    if r.status.StoppedBy? && r.status.clone.Some? {
      var u := r.status.clone.value;
      var m1 := AddThread(m, u);
      AddStays(m, u, t);
      AwaitStays(m1, u, waits, t);
      StaysOn(m, m1, AwaitStop(m1, u, waits).m, t);
      ForgetStays(m, m1, u, t);
      var s := if u in m1.seen then Stepped(ForgetSeen(m1, u), waits) else AwaitStop(m1, u, waits);
      QueueStays(m, s.m, ThreadEvent(s.m, THREAD_START, u), t);
    }
  }

  lemma RetrieveStays(m: Machine, t: Tid)
    requires t in m.threads
    ensures Stays(m, RetrievePending(m).0, t)
  {
    hide PickPending;
  }

  lemma CheckStays(m: Machine, waits: seq<Report>, noTimeout: bool, t: Tid)
    requires t in m.threads
    ensures Stays(m, CheckNewEvents(m, waits, noTimeout).m, t)
    decreases |waits|, 0
  {
    hide RetrievePending;
    hide HandleExtendedWait;
    hide Stays;
    var r0, w0 := NextReport(waits), Rest(waits);
    if r0.pid > 0 {
      TakeStays(m, r0, w0, t);
    } else {
      var (m1, pending) := RetrievePending(m);
      RetrieveStays(m, t);
      StaysThere(m, m1, t);
      if pending.Some? {
        ExtendedStays(m1, pending.value, w0, t);
        StaysOn(m, m1, HandleExtendedWait(m1, pending.value, w0).m, t);
      } else if !noTimeout && NextReport(w0).pid > 0 {
        TakeStays(m1, NextReport(w0), Rest(w0), t);
        StaysOn(m, m1, TakeReport(m1, NextReport(w0), Rest(w0)).m, t);
      }
    }
  }

  lemma StaysThere(m: Machine, r: Machine, t: Tid)
    requires Stays(m, r, t) && t in m.threads
    ensures t in r.threads
  {
  }

  lemma TakeStays(m: Machine, r: Report, waits: seq<Report>, t: Tid)
    requires t in m.threads
    ensures Stays(m, TakeReport(m, r, waits).m, t)
    decreases |waits|, 1
  {
    hide Heard;
    hide StorePending;
    hide HandleExtendedWait;
    hide Stays;
    var h := Heard(m, r);
    HeardStays(m, r, t);
    ExtendedStays(h, r, waits, t);
    var x := HandleExtendedWait(h, r, waits);
    StaysOn(m, h, x.m, t);
    StaysThere(m, x.m, t);
    if r.pid !in x.m.threads {
      StrangerStays(x.m, r, t);
      var m1 := if r.pid in x.m.deleted then Released(x.m, r.pid) else StorePending(x.m, r.pid, r.status);
      StaysOn(m, x.m, m1, t);
      StaysThere(m, m1, t);
      CheckStays(m1, x.waits, true, t);
      StaysOn(m, m1, CheckNewEvents(m1, x.waits, true).m, t);
    }
  }

  lemma HeardStays(m: Machine, r: Report, t: Tid)
    ensures Stays(m, Heard(m, r), t) && Heard(m, r).threads == m.threads
  {
  }

  lemma StrangerStays(m: Machine, r: Report, t: Tid)
    requires r.pid !in m.threads
    ensures Stays(m, StorePending(m, r.pid, r.status), t) && Stays(m, Released(m, r.pid), t)
  {
    hide StorePending;
    hide Released;
    StrangerStored(m, r.pid, r.status);
  }

  lemma StrangerStored(m: Machine, pid: Tid, status: WaitStatus)
    requires pid !in m.threads
    ensures var z := StorePending(m, pid, status);
            z == m.(seen := z.seen, kernel := z.kernel)
    ensures var z := Released(m, pid); z == m.(kernel := z.kernel)
  {
    hide Stored;
    hide NoneLost;
    hide SetThread;
  }

  // ---------------------------------------------------------------- the caught thread

  /** What the client has set, and how the caught thread was being run and with which signal,
      are as they were when the event was asked for. */
  lemma CaughtSteady(m0: Machine, rd: Round, k: Catch)
    requires Catches(m0, rd, k) && k.r.pid in m0.threads
    ensures SameSetting(m0, k.m)
    ensures k.r.pid in k.m.threads && SameMarks(m0.threads[k.r.pid], k.m.threads[k.r.pid])
  {
    hide CheckNewEvents;
    hide Freeze;
    var t := k.r.pid;
    CatchThere(m0, rd, k);
    CheckStays(m0, rd.env.waits, rd.noTimeout, t);
    var c := CheckNewEvents(m0, rd.env.waits, rd.noTimeout);
    var n := NotStopped(c.m, k.r);
    var m1 := SetThread(n, t, n.threads[t].(state := Stopped));
    FreezeSteady(m1, NO_THREAD, true, rd.env.(waits := c.waits), t);
  }

  /** So a thread that the client lets step, and that traps where no breakpoint is known, is
      reported with STEP, and its trap does not reach the application. */
  lemma StepsAreReported(m0: Machine, rd: Round, k: Catch)
    requires Catches(m0, rd, k) && k.r.pid in m0.threads && m0.threads[k.r.pid].singleStep
    requires k.r.status.StoppedBy? && k.r.status.sig == 5 && rd.cause.UserBpt? && rd.cause.kind.Unknown?
    requires if m0.arm then Place(k, rd) != BADADDR else Place(k, rd) != 0
    ensures var g := GetDebugEvent(m0, rd);
            && g.ev.Some? && g.ev.value.eid == STEP && g.ev.value.tid == k.r.pid
            && k.r.pid in g.m.threads && g.m.threads[k.r.pid].childSignum == 0
  {
    hide Catches;
    hide GetDebugEvent;
    hide After;
    CaughtSteady(m0, rd, k);
    StepReport(m0, rd, k);
  }
}
