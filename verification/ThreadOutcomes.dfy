/** What the operations on the thread table come to, thread by thread and flag by flag: the
    whole outcome of a thaw, the reports a freeze takes in, and the requests around them. */
module ThreadOutcomes {
  import opened DebugEvents
  import opened LeastElement
  import opened ThreadMachine
  import opened ThreadOps
  import opened FreezeNesting
  import opened PendingStatuses

  // ---------------------------------------------------------------- thawing

  // A dying thread is let go even while the application may not run.
  predicate Finishes(m: Machine, t: Tid)
    requires t in m.threads
  {
    var th := m.threads[t];
    th.state == Dying && th.suspendCount <= 1 && th.userSuspend == 0 && !th.gotPending && !m.exited
  }

  // A thread the kernel refuses to resume.
  predicate Refuses(m: Machine, t: Tid, conts: map<Tid, ContResult>)
    requires t in m.threads
  {
    var th := m.threads[t];
    && th.state == Stopped && th.suspendCount <= 1 && th.userSuspend == 0 && !th.gotPending
    && m.mayRun && !m.exited && ContOf(conts, t) == Refused
  }

  // No thread of todo before t turns out to be a zombie.
  ghost predicate Clear(m: Machine, todo: set<Tid>, conts: map<Tid, ContResult>, t: Tid)
    requires todo <= m.threads.Keys
  {
    forall u :: u in todo && u < t ==> !Dies(m, u, conts)
  }

  function StateAfter(m: Machine, t: Tid, conts: map<Tid, ContResult>, clear: bool): ThreadState
    requires t in m.threads
  {
    if Finishes(m, t) then Dead
    else if clear && Resumable(m, t, conts) then Running
    else if clear && Dies(m, t, conts) then Dead
    else m.threads[t].state
  }

  // A thawed thread: one suspension less, and its new state.
  predicate ThawedTo(th: Thread, state: ThreadState, th': Thread) {
    if th.IsRunning() then th' == th
    else th' == th.(suspendCount := if th.suspendCount == 0 then 0 else th.suspendCount - 1, state := state)
  }

  lemma WakeRefused(s: Thawed, t: Tid, conts: map<Tid, ContResult>)
    requires t in s.m.threads
    ensures Wake(s, t, conts).ok == (s.ok && (s.m.threads[t].state == Dying || ContOf(conts, t) != Refused))
  {
    hide ContOf;
    hide Woken;
    hide SetThread;
    hide Released;
    hide Enqueue;
  }

  lemma ThawOneOk(s: Thawed, u: Tid, conts: map<Tid, ContResult>)
    requires u in s.m.threads
    ensures ThawOne(s, u, conts).ok == (s.ok && !Refuses(s.m, u, conts))
  {
    hide Wake;
    hide ContOf;
    WakeRefused(s.(m := SetThread(s.m, u, Relieved(s.m.threads[u]))), u, conts);
  }

  lemma WokenState(m: Machine, u: Tid, conts: map<Tid, ContResult>)
    requires u in m.threads && !m.threads[u].IsRunning()
    ensures var th := Relieved(m.threads[u]);
            StateAfter(m, u, conts, true) == if Kept(m, th) then th.state else Woken(th, ContOf(conts, u)).state
  {
    hide ContOf;
  }

  lemma WokenOnlyState(th: Thread, cont: ContResult)
    ensures Woken(th, cont) == th.(state := Woken(th, cont).state)
  {
  }

  lemma ThawOneTo(s: Thawed, u: Tid, conts: map<Tid, ContResult>)
    requires u in s.m.threads
    ensures ThawedTo(s.m.threads[u], StateAfter(s.m, u, conts, true), ThawOne(s, u, conts).m.threads[u])
  {
    hide Wake;
    hide ContOf;
    hide Woken;
    hide Kept;
    hide StateAfter;
    if !s.m.threads[u].IsRunning() {
      WokenState(s.m, u, conts);
      var th := Relieved(s.m.threads[u]);
      WokenOnlyState(th, ContOf(conts, u));
      var s1 := s.(m := SetThread(s.m, u, th));
      assert s1.m.threads[u] == th;
      if Kept(s.m, th) {
        assert ThawOne(s, u, conts) == s1;
      } else {
        assert ThawOne(s, u, conts) == Wake(s1, u, conts);
      }
    }
  }

  lemma OthersAfter(s: Thawed, u: Tid, conts: map<Tid, ContResult>, v: Tid)
    requires u in s.m.threads && v in s.m.threads && v != u
    ensures var r := ThawOne(s, u, conts).m;
            && r.threads[v] == s.m.threads[v]
            && (Finishes(r, v) <==> Finishes(s.m, v))
            && (Refuses(r, v, conts) <==> Refuses(s.m, v, conts) && !Dies(s.m, u, conts))
            && (Resumable(r, v, conts) <==> Resumable(s.m, v, conts) && !Dies(s.m, u, conts))
            && (Dies(r, v, conts) <==> Dies(s.m, v, conts) && !Dies(s.m, u, conts))
  {
    hide ThawOne;
    hide ContOf;
    ThawLog(s, u, conts);
    ThawOneAt(s, u, conts, v);
  }

  lemma ClearAfter(s: Thawed, todo: set<Tid>, u: Tid, conts: map<Tid, ContResult>, t: Tid)
    requires todo <= s.m.threads.Keys && todo != {} && u == Least(todo) && t in todo && t != u
    ensures !Dies(s.m, u, conts) ==>
              (Clear(ThawOne(s, u, conts).m, todo - {u}, conts, t) <==> Clear(s.m, todo, conts, t))
    ensures Dies(s.m, u, conts) ==> !Clear(s.m, todo, conts, t)
    ensures Clear(s.m, todo, conts, u)
  {
    hide ThawOne;
    hide Dies;
    var r := ThawOne(s, u, conts).m;
    forall v | v in todo - {u} ensures Dies(r, v, conts) <==> Dies(s.m, v, conts) && !Dies(s.m, u, conts) {
      OthersAfter(s, u, conts, v);
    }
    LeastBefore(s.m, r, todo, u, conts, t);
    assert u < t;
  }

  lemma {:induction false} ThawAllTo(s: Thawed, todo: set<Tid>, conts: map<Tid, ContResult>, t: Tid)
    requires todo <= s.m.threads.Keys && t in s.m.threads
    ensures var th, r := s.m.threads[t], ThawAll(s, todo, conts).m.threads[t];
            if t in todo then ThawedTo(th, StateAfter(s.m, t, conts, Clear(s.m, todo, conts, t)), r) else r == th
    decreases |todo|
  {
    hide ThawOne;
    hide Dies;
    hide Resumable;
    hide Finishes;
    hide ThawedTo;
    if todo != {} {
      var u := Least(todo);
      var s1 := ThawOne(s, u, conts);
      ThawAllTo(s1, todo - {u}, conts, t);
      if t == u {
        ThawOneTo(s, u, conts);
        assert Clear(s.m, todo, conts, u);
      } else {
        OthersAfter(s, u, conts, t);
        if t in todo { ClearAfter(s, todo, u, conts, t); }
      }
    }
  }

  /** A thaw, thread by thread: a selected thread that is not running loses one suspension, and
      its state is what the kernel's answer makes of it: running when it is resumed, dead
      when it was dying or turns out to be a zombie before any other, else as it was.  Every
      other thread, and everything else about it, stays. */
  lemma ThawOutcome(m: Machine, tid: Tid, exclude: bool, conts: map<Tid, ContResult>, t: Tid)
    requires t in m.threads
    ensures var th, r := m.threads[t], Thaw(m, tid, exclude, conts).m.threads[t];
            var clear := forall u :: u in m.threads && Selected(u, tid, exclude) && u < t ==> !Dies(m, u, conts);
            if Selected(t, tid, exclude) && !th.IsRunning() then
              r == th.(suspendCount := if th.suspendCount == 0 then 0 else th.suspendCount - 1,
                       state := StateAfter(m, t, conts, clear))
            else r == th
  {
    hide Dies;
    var todo := SelectedSet(m, tid, exclude);
    ThawAllTo(Thawed(m, true), todo, conts, t);
    assert forall u :: u in todo <==> u in m.threads && Selected(u, tid, exclude);
    assert Clear(m, todo, conts, t) <==>
      forall u :: u in m.threads && Selected(u, tid, exclude) && u < t ==> !Dies(m, u, conts);
  }

  // Is z the first of todo that turns out to be a zombie?
  ghost predicate FirstZombie(m: Machine, todo: set<Tid>, conts: map<Tid, ContResult>, z: Tid)
    requires todo <= m.threads.Keys
  {
    z in todo && Dies(m, z, conts) && Clear(m, todo, conts, z)
  }

  // The queue, the flags and the result after thawing todo.
  ghost predicate ThawReports(s: Thawed, todo: set<Tid>, conts: map<Tid, ContResult>, r: Thawed)
    requires todo <= s.m.threads.Keys
  {
    && (forall z :: FirstZombie(s.m, todo, conts, z) ==>
          !r.m.mayRun && r.m.events == s.m.events + [ThreadEvent(s.m, THREAD_EXIT, z)])
    && ((forall z :: z in todo ==> !Dies(s.m, z, conts)) ==> r.m.events == s.m.events && r.m.mayRun == s.m.mayRun)
    && (r.ok <==> s.ok && forall u :: u in todo && Refuses(s.m, u, conts) ==> !Clear(s.m, todo, conts, u))
  }

  lemma {:induction false} ThawAllReports(s: Thawed, todo: set<Tid>, conts: map<Tid, ContResult>)
    requires todo <= s.m.threads.Keys
    ensures ThawReports(s, todo, conts, ThawAll(s, todo, conts))
    decreases |todo|
  {
    hide ThawOne;
    hide ThawReports;
    if todo == {} {
      NothingThawed(s, conts);
    } else {
      var u := Least(todo);
      ThawAllReports(ThawOne(s, u, conts), todo - {u}, conts);
      ReportsFrom(s, todo, u, conts, ThawAll(s, todo, conts));
    }
  }

  lemma NothingThawed(s: Thawed, conts: map<Tid, ContResult>)
    ensures ThawReports(s, {}, conts, s)
  {
  }

  lemma ReportsFrom(s: Thawed, todo: set<Tid>, u: Tid, conts: map<Tid, ContResult>, r: Thawed)
    requires todo <= s.m.threads.Keys && todo != {} && u == Least(todo)
    requires ThawReports(ThawOne(s, u, conts), todo - {u}, conts, r)
    ensures ThawReports(s, todo, conts, r)
  {
    hide ThawOne;
    hide Dies;
    hide Refuses;
    hide ThreadEvent;
    hide Clear;
    var s1 := ThawOne(s, u, conts);
    ThawLog(s, u, conts);
    ThawOneOk(s, u, conts);
    ClearFirst(s.m, todo, u, conts);
    forall t | t in todo - {u}
      ensures Refuses(s1.m, t, conts) <==> Refuses(s.m, t, conts) && !Dies(s.m, u, conts)
      ensures Dies(s1.m, t, conts) <==> Dies(s.m, t, conts) && !Dies(s.m, u, conts)
      ensures !Dies(s.m, u, conts) ==> (Clear(s1.m, todo - {u}, conts, t) <==> Clear(s.m, todo, conts, t))
      ensures Dies(s.m, u, conts) ==> !Clear(s.m, todo, conts, t)
      ensures ThreadEvent(s1.m, THREAD_EXIT, t) == ThreadEvent(s.m, THREAD_EXIT, t)
    {
      OthersAfter(s, u, conts, t);
      ClearAfter(s, todo, u, conts, t);
      SameExit(s.m, s1.m, t);
    }
    DiesNotRefuses(s.m, u, conts);
  }

  lemma ClearFirst(m: Machine, todo: set<Tid>, u: Tid, conts: map<Tid, ContResult>)
    requires todo <= m.threads.Keys && todo != {} && u == Least(todo)
    ensures Clear(m, todo, conts, u)
  {
  }

  lemma DiesNotRefuses(m: Machine, u: Tid, conts: map<Tid, ContResult>)
    requires u in m.threads
    ensures !(Dies(m, u, conts) && Refuses(m, u, conts))
  {
  }

  /** What a thaw reports: the exit of the first selected thread that is a zombie, which holds
      the application; and it fails exactly when the kernel refuses to resume a selected
      thread before that. */
  lemma ThawReportsIff(m: Machine, tid: Tid, exclude: bool, conts: map<Tid, ContResult>)
    ensures ThawReports(Thawed(m, true), SelectedSet(m, tid, exclude), conts, Thaw(m, tid, exclude, conts))
  {
    ThawAllReports(Thawed(m, true), SelectedSet(m, tid, exclude), conts);
  }

  // ---------------------------------------------------------------- the reports a freeze takes in

  // The stop a freeze sends for.
  predicate IsSigstop(st: WaitStatus) {
    st.StoppedBy? && st.sig == 19
  }

  lemma WaitOneTakes(w: Waiting, t: Tid)
    requires w.waits != [] && w.queue <= w.m.threads.Keys && w.waits[0].pid == t && t > 0
    requires t in w.m.threads && w.m.threads[t].state != Dead && !IsSigstop(w.waits[0].status)
    ensures Holds(WaitOne(w).m, t, w.waits[0].status)
  {
    hide StorePending;
    hide Heard;
    StorePendingThread(Heard(w.m, w.waits[0]), t, w.waits[0].status, t);
  }

  lemma StoredAlive(th: Thread, st: WaitStatus)
    ensures th.state != Dead ==> Stored(th, st).state != Dead
  {
  }

  lemma WaitOneAlive(w: Waiting, t: Tid)
    requires w.waits != [] && w.queue <= w.m.threads.Keys && t in w.m.threads && w.m.threads[t].state != Dead
    ensures WaitOne(w).m.threads[t].state != Dead
  {
    hide StorePending;
    hide Heard;
    hide Stored;
    StoredAlive(w.m.threads[t], w.waits[0].status);
    StorePendingThread(Heard(w.m, w.waits[0]), w.waits[0].pid, w.waits[0].status, t);
  }

  lemma {:induction false} WaitAllTakes(w: Waiting, i: nat)
    requires w.queue <= w.m.threads.Keys && i < |w.waits| && |WaitAll(w).waits| < |w.waits| - i
    requires w.waits[i].pid > 0 && !IsSigstop(w.waits[i].status) && Unreported(w.waits[i + 1..], w.waits[i].pid)
    requires w.waits[i].pid in w.m.threads && w.m.threads[w.waits[i].pid].state != Dead
    ensures Holds(WaitAll(w).m, w.waits[i].pid, w.waits[i].status)
    decreases |w.waits|
  {
    hide Holds;
    var t := w.waits[i].pid;
    var w1 := WaitOne(w);
    assert w1.waits == w.waits[1..];
    if i == 0 {
      WaitOneTakes(w, t);
      assert WaitAll(w) == WaitAll(w1);
      WaitAllHolds(w1, t, w.waits[0].status);
    } else {
      WaitOneAlive(w, t);
      assert w1.waits[i - 1] == w.waits[i] && w1.waits[i..] == w.waits[i + 1..];
      WaitAllTakes(w1, i - 1);
    }
  }

  lemma {:induction false} KillAllState(s: Signalling, todo: set<Tid>, kills: map<Tid, KillResult>, t: Tid)
    requires todo <= s.m.threads.Keys && t in s.m.threads
    ensures KillAll(s, todo, kills).m.threads[t].state == s.m.threads[t].state
    decreases |todo|
  {
    if todo != {} {
      var u := Least(todo);
      KillAllState(KillOne(s, u, kills), todo - {u}, kills, t);
    }
  }

  /** A freeze loses no report: the last one it takes in for a thread, if it is not a SIGSTOP,
      is pending in that thread when it ends, unless the thread had been found gone. */
  lemma FreezeKeepsReport(m: Machine, tid: Tid, exclude: bool, env: Env, i: nat)
    requires i < |env.waits| && |Freeze(m, tid, exclude, env).waits| < |env.waits| - i
    requires var r := env.waits[i];
             && r.pid > 0 && !IsSigstop(r.status) && Unreported(env.waits[i + 1..], r.pid)
             && r.pid in m.threads && m.threads[r.pid].state != Dead
    ensures var r, f := env.waits[i], Freeze(m, tid, exclude, env).m;
            r.pid in f.threads ==> f.threads[r.pid].gotPending && f.threads[r.pid].pendingStatus == r.status
  {
    hide KillAll;
    hide WaitAll;
    var t := env.waits[i].pid;
    var s0 := Signalling(m, {}, []);
    KillAllQueue(s0, SelectedSet(m, tid, exclude), env.kills);
    KillAllState(s0, SelectedSet(m, tid, exclude), env.kills, t);
    var s := Signal(m, tid, exclude, env);
    var w := Waiting(s.m, s.queue, env.waits);
    WaitAllTakes(w, i);
    ReapAllRemoves(WaitAll(w).m, s.dead, t);
    if t !in s.dead { ReapAllOthers(WaitAll(w).m, s.dead, t); }
  }

  /** A report of a thread that is not in the table: a stop is remembered for the clone that
      announces the thread, unless the thread was deleted lately, which is left to end. */
  lemma StrangerStored(m: Machine, t: Tid, st: WaitStatus)
    requires t !in m.threads
    ensures var r := StorePending(m, t, st);
            && r.threads == m.threads && r.npending == m.npending
            && r.seen == (if t !in m.deleted && st.StoppedBy? then m.seen + [t] else m.seen)
            && r.kernel.stopped == (if t in m.deleted then m.kernel.stopped - {t} else m.kernel.stopped)
  {
  }

  /** The first of the remembered stops of a thread is used up by its clone, no other. */
  lemma {:induction false} SeenOnce(seen: seq<Tid>, t: Tid, i: nat)
    requires i < |seen| && seen[i] == t && t !in seen[..i]
    ensures RemoveFirst(seen, t) == seen[..i] + seen[i + 1..]
    decreases i
  {
    if i == 0 {
      assert seen[..0] == [];
    } else {
      assert seen[0] == seen[..i][0];
      assert seen[1..][..i - 1] == seen[..i][1..];
      SeenOnce(seen[1..], t, i - 1);
      assert seen[..i] == [seen[0]] + seen[1..][..i - 1] && seen[1..][i..] == seen[i + 1..];
    }
  }

  /** Nor does the wait for the first stop of a new thread: the report it takes in instead, if it
      is not a SIGSTOP, is pending in its thread. */
  lemma AwaitKeepsReport(m: Machine, t: Tid, waits: seq<Report>)
    requires t in m.threads && waits != [] && waits[0].pid > 0 && !IsSigstop(waits[0].status)
    requires waits[0].pid in m.threads && m.threads[waits[0].pid].state != Dead
    ensures Holds(AwaitStop(m, t, waits).m, waits[0].pid, waits[0].status)
    ensures AwaitStop(m, t, waits).m.threads[t].waitingSigstop
  {
    hide StorePending;
    hide Heard;
    var r := waits[0];
    var h := Heard(Awaiting(m, t), r);
    StorePendingThread(h, r.pid, r.status, r.pid);
    StorePendingThread(h, r.pid, r.status, t);
  }

  // ---------------------------------------------------------------- the table

  /** A thread that is new to the table is stopped, without suspensions, signals or anything to
      report; a known one stays as it is. */
  lemma AddedThread(m: Machine, t: Tid)
    ensures var r := AddThread(m, t);
            && r == m.(threads := r.threads)
            && r.threads == if t in m.threads then m.threads
                            else m.threads[t := Thread(0, 0, 0, false, Stopped, false, false, Continued)]
  {
  }

  /** A thread that is deleted takes its pending status out of the count, and it is the last of
      the ten deletions that are remembered. */
  lemma DeletedThread(m: Machine, t: Tid)
    requires t in m.threads
    ensures var r, all := DelThread(m, t), m.deleted + [t];
            && r.threads == m.threads - {t}
            && r.npending == m.npending - |set u | u == t && m.threads[u].gotPending|
            && (|m.deleted| <= 10 ==> r.deleted == all[if |all| > 10 then |all| - 10 else 0..] && |r.deleted| <= 10)
  {
    assert (set u | u == t && m.threads[u].gotPending) == if m.threads[t].gotPending then {t} else {};
  }

  /** A library step: what each does to the queue and the table. */
  lemma SideStepOutcome(s: Stepped, step: SideStep)
    ensures var r := SideEffect(s, step);
            match step
            case Library(ev) =>
              && r.m.threads == s.m.threads && r.waits == s.waits
              && (ev.eid != NO_EVENT ==> r.m.events == [ev] + s.m.events && !r.m.mayRun)
            case DropLoad(name) =>
              r.m == s.m.(events := DelPendingEvent(s.m.events, LIBRARY_LOAD, name)) && r.waits == s.waits
            case Birth(t) =>
              if t in s.m.threads then r == s
              else t in r.m.threads
                   && r.m.events == [Event(THREAD_START, ProcessId(s.m), t, BADADDR, true, NoPayload)] + s.m.events
            case Death(t) =>
              && r.waits == s.waits
              && if t !in s.m.threads then r == s
                 else r.m.threads == s.m.threads[t := s.m.threads[t].(state := Dying)]
                      && r.m.events == s.m.events + [Event(THREAD_EXIT, ProcessId(s.m), t, BADADDR, true, ExitCode(0))]
  {
    hide AwaitStop;
    match step
    case Library(ev) =>
    case DropLoad(name) =>
    case Birth(t) =>
      if t !in s.m.threads {
        AwaitKeepsQueue(Enqueue(AddThread(s.m, t), ThreadEvent(s.m, THREAD_START, t), InFront), t, s.waits);
      }
    case Death(t) =>
  }

  lemma AwaitKeepsQueue(m: Machine, t: Tid, waits: seq<Report>)
    requires t in m.threads
    ensures AwaitStop(m, t, waits).m.events == m.events
  {
    hide StorePending;
    hide Heard;
    var h := Heard(Awaiting(m, t), NextReport(waits));
    StoreFlags(h, NextReport(waits).pid, NextReport(waits).status);
  }

  /** Dropping an announcement takes the first one of that module out of the queue. */
  lemma {:induction false} DropsFirst(events: seq<Event>, eid: word, name: Text, i: nat)
    requires i < |events| && IsModuleEvent(events[i], eid, name)
    requires forall j :: 0 <= j < i ==> !IsModuleEvent(events[j], eid, name)
    ensures DelPendingEvent(events, eid, name) == events[..i] + events[i + 1..]
    decreases i
  {
    if i == 0 {
      assert events[..0] == [];
    } else {
      DropsFirst(events[1..], eid, name, i - 1);
      assert events[..i] == [events[0]] + events[1..][..i - 1] && events[1..][i..] == events[i + 1..];
    }
  }

  lemma {:induction false} DropsNothing(events: seq<Event>, eid: word, name: Text)
    requires forall j :: 0 <= j < |events| ==> !IsModuleEvent(events[j], eid, name)
    ensures DelPendingEvent(events, eid, name) == events
    decreases |events|
  {
    if events != [] { DropsNothing(events[1..], eid, name); }
  }
}
