/** The signal a thread is resumed with: which one it holds after a continue, and how that
    decides what the application gets of the signal it was stopped by. */
module SignalFlow {
  import opened DebugEvents
  import opened LeastElement
  import opened ThreadMachine
  import opened FreezeNesting

  // ---------------------------------------------------------------- thawing

  // Thawing changes no signal and no stepping, and forgets no thread.
  predicate SameMarks(th: Thread, th': Thread) {
    th'.childSignum == th.childSignum && th'.singleStep == th.singleStep
  }

  lemma WakeMarks(s: Thawed, u: Tid, conts: map<Tid, ContResult>, t: Tid)
    requires u in s.m.threads && t in s.m.threads
    ensures SameMarks(s.m.threads[t], Wake(s, u, conts).m.threads[t])
  {
    hide Wake;
    hide ContOf;
  }

  lemma ThawOneMarks(s: Thawed, u: Tid, conts: map<Tid, ContResult>, t: Tid)
    requires u in s.m.threads && t in s.m.threads
    ensures SameMarks(s.m.threads[t], ThawOne(s, u, conts).m.threads[t])
  {
    hide Wake;
    hide Kept;
    var s1 := s.(m := SetThread(s.m, u, Relieved(s.m.threads[u])));
    WakeMarks(s1, u, conts, t);
    assert SameMarks(s.m.threads[t], s1.m.threads[t]);
  }

  lemma {:induction false} ThawAllMarks(s: Thawed, todo: set<Tid>, conts: map<Tid, ContResult>, t: Tid)
    requires todo <= s.m.threads.Keys && t in s.m.threads
    ensures SameMarks(s.m.threads[t], ThawAll(s, todo, conts).m.threads[t])
    decreases |todo|
  {
    hide ThawOne;
    if todo != {} {
      var u := Least(todo);
      ThawOneMarks(s, u, conts, t);
      ThawAllMarks(ThawOne(s, u, conts), todo - {u}, conts, t);
    }
  }

  lemma ThawMarks(m: Machine, tid: Tid, exclude: bool, conts: map<Tid, ContResult>, t: Tid)
    requires t in m.threads
    ensures var r := Thaw(m, tid, exclude, conts).m; t in r.threads && SameMarks(m.threads[t], r.threads[t])
  {
    ThawAllMarks(Thawed(m, true), SelectedSet(m, tid, exclude), conts, t);
  }

  // ---------------------------------------------------------------- the thread of the event

  // The signal of t after a continue from ev: an event that is not the report of an
  // unhandled exception clears it, unless it is about the thread or a library as such.
  function SignalAfter(m: Machine, ev: Event, t: Tid): nat
    requires t in m.threads
  {
    if t == ev.tid && ev.eid != THREAD_START && ev.eid != THREAD_EXIT && ev.eid != LIBRARY_LOAD
       && ev.eid != LIBRARY_UNLOAD && (ev.eid == EXCEPTION ==> ev.handled)
    then 0 else m.threads[t].childSignum
  }

  // What settling does to a thread that is not dead: a dying one loses its suspensions and
  // is let go, unless it has something left to report or the process has exited.
  predicate SettledAs(m: Machine, ev: Event, u: Tid, th: Thread)
    requires u in m.threads
  {
    var th0 := m.threads[u];
    && th.childSignum == SignalAfter(m, ev, u) && th.singleStep == th0.singleStep
    && th.gotPending == th0.gotPending
    && if u == ev.tid && th0.state == Dying then
         && th.suspendCount == 0 && th.userSuspend == 0
         && th.state == if th0.gotPending || m.exited then Dying else Dead
       else th.state == th0.state && th.suspendCount == th0.suspendCount && th.userSuspend == th0.userSuspend
  }

  // The threads that are left: a dead one of the event is not.
  predicate Left(m: Machine, ev: Event, u: Tid) {
    u in m.threads && !(u == ev.tid && m.threads[u].state == Dead)
  }

  ghost predicate Settled(m: Machine, ev: Event, r: Machine) {
    && r.events == m.events && r.exited == m.exited && r.resumed == m.resumed
    && (forall u :: u in r.threads <==> Left(m, ev, u))
    && forall u :: u in r.threads ==> SettledAs(m, ev, u, r.threads[u])
  }

  lemma ThawSelf(m: Machine, t: Tid, conts: map<Tid, ContResult>)
    requires t in m.threads
    ensures Thaw(m, t, false, conts) == ThawOne(Thawed(m, true), t, conts)
  {
    hide ThawOne;
    assert SelectedSet(m, t, false) == {t};
    assert Least({t}) == t;
    assert {t} - {t} == {};
    assert ThawAll(ThawOne(Thawed(m, true), t, conts), {}, conts) == ThawOne(Thawed(m, true), t, conts);
  }

  lemma DyingThawed(m: Machine, t: Tid, conts: map<Tid, ContResult>)
    requires t in m.threads && m.threads[t].state == Dying
    requires m.threads[t].suspendCount == 0 && m.threads[t].userSuspend == 0
    ensures var r := Thaw(m, t, false, conts).m;
            var th := m.threads[t];
            && r == m.(threads := r.threads, kernel := r.kernel)
            && r.threads == if th.gotPending || m.exited then m.threads else m.threads[t := th.(state := Dead)]
  {
    hide Thaw;
    hide ContOf;
    hide Released;
    ThawSelf(m, t, conts);
    var th := m.threads[t];
    assert Relieved(th) == th;
    assert SetThread(m, t, th).threads == m.threads;
    assert m.threads[t := th][t := th.(state := Dead)] == m.threads[t := th.(state := Dead)];
  }

  lemma SignalKept(m: Machine, ev: Event)
    requires ev.tid in m.threads
    ensures SignalAfter(m, ev, ev.tid) == if KeepsSignal(ev) then m.threads[ev.tid].childSignum else 0
  {
  }

  lemma SettledBy(m: Machine, ev: Event, th: Thread, r: Machine)
    requires ev.tid in m.threads && m.threads[ev.tid].state != Dead && SettledAs(m, ev, ev.tid, th)
    requires r == m.(threads := m.threads[ev.tid := th], kernel := r.kernel)
    ensures Settled(m, ev, r)
  {
  }

  lemma Buried(m: Machine, ev: Event, th: Thread)
    requires ev.tid in m.threads && m.threads[ev.tid].state == Dead
    ensures Settled(m, ev, DelThread(SetThread(m, ev.tid, th), ev.tid))
  {
    var r := DelThread(SetThread(m, ev.tid, th), ev.tid);
    forall u | u in r.threads ensures SettledAs(m, ev, u, r.threads[u]) {
      assert r.threads[u] == m.threads[u];
    }
  }

  lemma DyingSettles(m: Machine, ev: Event, th: Thread, conts: map<Tid, ContResult>)
    requires ev.tid in m.threads && m.threads[ev.tid].state == Dying
    requires th == m.threads[ev.tid].(childSignum := SignalAfter(m, ev, ev.tid), suspendCount := 0, userSuspend := 0)
    ensures Settled(m, ev, Thaw(SetThread(m, ev.tid, th), ev.tid, false, conts).m)
  {
    hide Thaw;
    hide Settled;
    hide SignalAfter;
    var t := ev.tid;
    var m1 := SetThread(m, t, th);
    DyingThawed(m1, t, conts);
    var r := Thaw(m1, t, false, conts).m;
    assert m.threads[t := th][t := th.(state := Dead)] == m.threads[t := th.(state := Dead)];
    SettledBy(m, ev, r.threads[t], r);
  }

  lemma SettleThreadSettles(m: Machine, ev: Event, conts: map<Tid, ContResult>)
    requires ev.tid in m.threads
    ensures Settled(m, ev, SettleThread(m, ev, conts))
  {
    hide Thaw;
    hide KeepsSignal;
    hide SignalAfter;
    hide Settled;
    hide DelThread;
    hide SetThread;
    var t := ev.tid;
    var th := m.threads[t].(childSignum := SignalAfter(m, ev, t));
    SignalKept(m, ev);
    if th.state == Dying {
      DyingSettles(m, ev, th.(suspendCount := 0, userSuspend := 0), conts);
    } else if th.state == Dead {
      Buried(m, ev, th);
    } else {
      SetSettles(m, ev, th);
    }
  }

  lemma SetSettles(m: Machine, ev: Event, th: Thread)
    requires ev.tid in m.threads && m.threads[ev.tid].state != Dead && SettledAs(m, ev, ev.tid, th)
    ensures Settled(m, ev, SetThread(m, ev.tid, th))
  {
    SettledBy(m, ev, th, SetThread(m, ev.tid, th));
  }

  // ---------------------------------------------------------------- continuing

  // Does u have a status to deliver once the thread of ev is settled?
  predicate Deliverable(m: Machine, ev: Event, u: Tid) {
    && Left(m, ev, u) && m.threads[u].gotPending
    && ((u == ev.tid && m.threads[u].state == Dying)
        || (m.threads[u].suspendCount == 0 && m.threads[u].userSuspend == 0))
  }

  // Does the continue find out that u is a zombie, if it may resume threads at all?
  predicate Zombified(m: Machine, conts: map<Tid, ContResult>, u: Tid) {
    && u in m.threads && u != NO_THREAD && ContOf(conts, u) == Zombie
    && var th := m.threads[u];
       th.state == Stopped && th.suspendCount <= 1 && th.userSuspend == 0 && !th.gotPending
  }

  lemma PendingSettled(m: Machine, ev: Event, m1: Machine)
    requires Settled(m, ev, m1)
    ensures HasPendingEvents(m1) <==> m.events != [] || exists u :: Deliverable(m, ev, u)
  {
    forall u ensures Deliverable(m, ev, u) <==> u in m1.threads && m1.threads[u].Deliverable() {
      if u in m1.threads { assert SettledAs(m, ev, u, m1.threads[u]); }
    }
  }

  lemma DiesSettled(m: Machine, ev: Event, m1: Machine, conts: map<Tid, ContResult>, u: Tid)
    requires Settled(m, ev, m1) && u in m1.threads && u != NO_THREAD
    ensures Dies(m1, u, conts) <==> Zombified(m, conts, u) && m1.mayRun && !m1.exited
  {
    hide ContOf;
    assert SettledAs(m, ev, u, m1.threads[u]);
  }

  // May r be how a continue from ev resumes its thread?
  ghost predicate Passes(m: Machine, ev: Event, conts: map<Tid, ContResult>, r: Resumption) {
    && r.tid in m.threads && r.tid != NO_THREAD
    && (var th := m.threads[r.tid];
        && th.state == Stopped && th.suspendCount <= 1 && th.userSuspend == 0 && !th.gotPending
        && r.signal == SignalAfter(m, ev, r.tid) && r.step == th.singleStep)
    && !m.exited && m.events == [] && (forall u :: !Deliverable(m, ev, u))
    && ContOf(conts, r.tid) == Resumed && (forall u :: u < r.tid ==> !Zombified(m, conts, u))
  }

  lemma SettledResumes(m: Machine, ev: Event, m1: Machine, conts: map<Tid, ContResult>, r: Resumption)
    requires Settled(m, ev, m1)
    ensures NewlyResumed(m.resumed, ResumeApp(m1.(inEvent := false), conts).m.resumed, r) <==> Passes(m, ev, conts, r)
  {
    hide Thaw;
    hide ContOf;
    hide Deliverable;
    hide Zombified;
    hide SignalAfter;
    hide HasPendingEvents;
    hide Dies;
    var m2 := m1.(inEvent := false, mayRun := !HasPendingEvents(m1.(inEvent := false)));
    ThawResumesIff(m2, NO_THREAD, true, conts, r);
    PendingSettled(m, ev, m1.(inEvent := false));
    forall u | u in m2.threads && u != NO_THREAD
      ensures Dies(m2, u, conts) <==> Zombified(m, conts, u) && m2.mayRun && !m2.exited
    {
      DiesSettled(m, ev, m2, conts, u);
    }
    ZombiesThere(m, ev, m1, conts);
    if r.tid in m1.threads { assert SettledAs(m, ev, r.tid, m1.threads[r.tid]); }
  }

  lemma ZombiesThere(m: Machine, ev: Event, m1: Machine, conts: map<Tid, ContResult>)
    requires Settled(m, ev, m1)
    ensures forall u :: Zombified(m, conts, u) ==> u in m1.threads && u != NO_THREAD
  {
    hide ContOf;
  }

  /** Exactly which threads a continue resumes, and with what: the event must be of a known
      thread (or an exit), nothing may be queued or pending, and a thread that was stopped
      by one freeze at most is resumed with the signal it was stopped for, except that the
      thread of the event gets none unless the event is an unhandled exception or one of
      the four that are about threads and libraries. */
  lemma ContinueResumesIff(m: Machine, ev: Event, conts: map<Tid, ContResult>, r: Resumption)
    ensures NewlyResumed(m.resumed, ContinueAfter(m, Some(ev), conts).m.resumed, r) <==>
            (ev.tid in m.threads || ev.eid == THREAD_EXIT) && Passes(m, ev, conts, r)
  {
    hide ResumeApp;
    hide SettleThread;
    hide SettledAs;
    if ev.tid in m.threads || ev.eid == THREAD_EXIT || m.exited {
      if ev.tid in m.threads {
        SettleThreadSettles(m, ev, conts);
      } else {
        UnknownSettled(m, ev);
      }
      SettledResumes(m, ev, if ev.tid in m.threads then SettleThread(m, ev, conts) else m, conts, r);
    } else {
      assert m.resumed[|m.resumed|..] == [];
    }
  }

  lemma UnknownSettled(m: Machine, ev: Event)
    requires ev.tid !in m.threads
    ensures Settled(m, ev, m)
  {
  }

  /** After a continue every thread that is left holds the signal it held, except that of the
      event, which holds none unless it is to be passed on; a dying thread of the event is
      let go even while the application may not run, and a dead one is forgotten. */
  lemma ContinueSignals(m: Machine, ev: Event, conts: map<Tid, ContResult>, t: Tid)
    ensures var r := ContinueAfter(m, Some(ev), conts).m;
            && (t in r.threads <==> Left(m, ev, t))
            && (t in r.threads ==> r.threads[t].childSignum == SignalAfter(m, ev, t)
                                   && r.threads[t].singleStep == m.threads[t].singleStep)
            && (t in r.threads && t == ev.tid && m.threads[t].state == Dying ==>
                  m.threads[t].gotPending || m.exited || r.threads[t].state == Dead)
  {
    hide Thaw;
    hide SettleThread;
    if ev.tid in m.threads || ev.eid == THREAD_EXIT || m.exited {
      var m1 := if ev.tid in m.threads then SettleThread(m, ev, conts) else m;
      if ev.tid in m.threads { SettleThreadSettles(m, ev, conts); } else { UnknownSettled(m, ev); }
      var m2 := m1.(inEvent := false, mayRun := !HasPendingEvents(m1.(inEvent := false)));
      assert ContinueAfter(m, Some(ev), conts) == Thaw(m2, NO_THREAD, true, conts);
      if t in m2.threads {
        ThawMarks(m2, NO_THREAD, true, conts, t);
        DeadStays(m2, conts, t);
      }
      ThawKeys(m2, NO_THREAD, true, conts);
    }
  }

  lemma DeadStays(m: Machine, conts: map<Tid, ContResult>, t: Tid)
    requires t in m.threads
    ensures var r := Thaw(m, NO_THREAD, true, conts).m;
            t in r.threads && (m.threads[t].state == Dead ==> r.threads[t].state == Dead)
  {
    hide ThawAll;
    if m.threads[t].state == Dead { DeadStaysAll(Thawed(m, true), SelectedSet(m, NO_THREAD, true), conts, t); }
  }

  lemma {:induction false} DeadStaysAll(s: Thawed, todo: set<Tid>, conts: map<Tid, ContResult>, t: Tid)
    requires todo <= s.m.threads.Keys && t in s.m.threads && s.m.threads[t].state == Dead
    ensures ThawAll(s, todo, conts).m.threads[t].state == Dead
    decreases |todo|
  {
    hide ThawOne;
    if todo != {} {
      var u := Least(todo);
      DeadStaysOne(s, u, conts, t);
      DeadStaysAll(ThawOne(s, u, conts), todo - {u}, conts, t);
    }
  }

  lemma DeadStaysOne(s: Thawed, u: Tid, conts: map<Tid, ContResult>, t: Tid)
    requires u in s.m.threads && t in s.m.threads && s.m.threads[t].state == Dead
    ensures ThawOne(s, u, conts).m.threads[t].state == Dead
  {
    hide Wake;
    hide ContOf;
  }

  lemma ThawKeys(m: Machine, tid: Tid, exclude: bool, conts: map<Tid, ContResult>)
    ensures Thaw(m, tid, exclude, conts).m.threads.Keys == m.threads.Keys
  {
  }

  // ---------------------------------------------------------------- resuming the application

  // May t go on when the application is resumed?
  ghost predicate GoesOn(m: Machine, conts: map<Tid, ContResult>, t: Tid) {
    && t in m.threads && t != NO_THREAD
    && (var th := m.threads[t];
        th.state == Stopped && th.suspendCount <= 1 && th.userSuspend == 0 && !th.gotPending)
    && !m.exited && m.events == [] && (forall u :: u in m.threads ==> !m.threads[u].Deliverable())
    && ContOf(conts, t) == Resumed && (forall u :: u < t ==> !Zombified(m, conts, u))
  }

  /** Exactly which threads resume_app resumes, each with the signal it holds. */
  lemma ResumeAppIff(m: Machine, conts: map<Tid, ContResult>, r: Resumption)
    ensures NewlyResumed(m.resumed, ResumeApp(m, conts).m.resumed, r) <==>
            && GoesOn(m, conts, r.tid)
            && r.signal == m.threads[r.tid].childSignum && r.step == m.threads[r.tid].singleStep
  {
    hide Thaw;
    hide ContOf;
    hide Dies;
    hide Zombified;
    var m2 := m.(mayRun := !HasPendingEvents(m));
    ThawResumesIff(m2, NO_THREAD, true, conts, r);
    forall u | u in m.threads && u != NO_THREAD
      ensures Dies(m2, u, conts) <==> Zombified(m, conts, u) && m2.mayRun && !m2.exited
    {
      DiesWhen(m, m2, conts, u);
    }
    ZombiesKnown(m, conts);
  }

  lemma DiesWhen(m: Machine, m2: Machine, conts: map<Tid, ContResult>, u: Tid)
    requires m2.threads == m.threads && u in m.threads && u != NO_THREAD
    ensures Dies(m2, u, conts) <==> Zombified(m, conts, u) && m2.mayRun && !m2.exited
  {
    hide ContOf;
  }

  lemma ZombiesKnown(m: Machine, conts: map<Tid, ContResult>)
    ensures forall u :: Zombified(m, conts, u) ==> u in m.threads && u != NO_THREAD
  {
    hide ContOf;
  }
}
