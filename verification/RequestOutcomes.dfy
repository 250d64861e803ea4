/** What the client's requests come to: which report an enquiry takes up, what a fetch hands
    out, and the state after a memory access, a pause, the end and the start of a process. */
module RequestOutcomes {
  import opened DebugEvents
  import opened LeastElement
  import opened ThreadMachine
  import opened ThreadOps
  import opened FreezeNesting

  // ---------------------------------------------------------------- enquiries

  lemma ExtendedKeeps(m: Machine, r: Report, waits: seq<Report>)
    ensures m.threads.Keys <= HandleExtendedWait(m, r, waits).m.threads.Keys
  {
    hide AwaitStop;
  }

  /** A fresh report of a known thread is taken up before any pending status. */
  lemma FreshFirst(m: Machine, waits: seq<Report>, noTimeout: bool)
    requires waits != [] && waits[0].pid > 0 && waits[0].pid in m.threads
    ensures CheckNewEvents(m, waits, noTimeout).found == Some(waits[0])
  {
    hide HandleExtendedWait;
    ExtendedKeeps(Heard(m, waits[0]), waits[0], waits[1..]);
  }

  /** A report of a thread that is not in the table, if it announces no other, is stored, and the
      enquiry goes on without waiting. */
  lemma StrangerPassed(m: Machine, waits: seq<Report>, noTimeout: bool)
    requires waits != [] && waits[0].pid > 0 && waits[0].pid !in m.threads
    requires !(waits[0].status.StoppedBy? && waits[0].status.clone.Some?)
    ensures CheckNewEvents(m, waits, noTimeout)
            == CheckNewEvents(StorePending(Heard(m, waits[0]), waits[0].pid, waits[0].status), waits[1..], true)
  {
    hide StorePending;
    var h := Heard(m, waits[0]);
    assert HandleExtendedWait(h, waits[0], waits[1..]) == Extended(h, waits[1..], false);
    if waits[0].pid in h.deleted { LeftToEnd(h, waits[0].pid, waits[0].status); }
  }

  lemma LeftToEnd(m: Machine, pid: Tid, status: WaitStatus)
    requires pid !in m.threads && pid in m.deleted
    ensures StorePending(m, pid, status) == Released(m, pid)
  {
  }

  /** Without a fresh report a pending status is taken up, and without either the enquiry
      waits once, for a report of a known thread, if it may. */
  lemma PendingNext(m: Machine, waits: seq<Report>, noTimeout: bool)
    requires NextReport(waits).pid <= 0
    ensures var c, p, w := CheckNewEvents(m, waits, noTimeout), RetrievePending(m).1, Rest(waits);
            && (p.Some? ==> c.found == p)
            && (p.None? && (noTimeout || NextReport(w).pid <= 0) ==> c.found == None && c.m == m)
            && (p.None? && !noTimeout && NextReport(w).pid > 0 && NextReport(w).pid in m.threads ==>
                  c.found == Some(NextReport(w)))
  {
    hide HandleExtendedWait;
    var w := Rest(waits);
    ExtendedKeeps(Heard(m, NextReport(w)), NextReport(w), Rest(w));
  }

  /** An event that is queued is handed out alone, first in first out, without asking for
      another; the client's wish to suspend is met by it. */
  lemma FetchQueued(m: Machine, rounds: seq<Round>)
    requires m.events != []
    ensures var g := FetchEvent(m, rounds);
            && g.ev == Some(m.events[0]) && m.events == [g.ev.value] + g.m.events
            && g.m == m.(events := g.m.events, inEvent := true, requestedToSuspend := false)
  {
  }

  // ---------------------------------------------------------------- memory accesses

  lemma OneFreeze(m: Machine, env: Env)
    ensures FreezeTimes(m, [env]) == Freeze(m, NO_THREAD, true, env).m
    ensures Freeze(m, NO_THREAD, true, env).done && KillsSucceed(env) ==> FreezesComplete(m, [env])
  {
    hide Freeze;
    assert [env][1..] == [];
  }

  lemma OneThaw(m: Machine, conts: map<Tid, ContResult>)
    ensures ThawTimes(m, [conts]) == Thaw(m, NO_THREAD, true, conts).m
  {
    hide Thaw;
    assert [conts][1..] == [];
  }

  /** The bracket of a memory access restores the suspensions of every thread that survives
      its freeze. */
  lemma AccessRestores(m: Machine, env: Env, t: Tid)
    requires !m.exited && m.process.Some? && KillsSucceed(env) && Freeze(m, NO_THREAD, true, env).done
    ensures var r := AccessMemory(m, env);
            && r.threads.Keys == Freeze(m, NO_THREAD, true, env).m.threads.Keys <= m.threads.Keys
            && (t in r.threads ==> r.threads[t].suspendCount == m.threads[t].suspendCount)
  {
    hide Freeze;
    hide Thaw;
    OneFreeze(m, env);
    OneThaw(FreezeTimes(m, [env]), env.conts);
    FreezeThawNesting(m, [env], [env.conts]);
  }

  // ---------------------------------------------------------------- pausing and continuing

  /** A pause holds the application and asks for its suspension; if nothing is queued, the
      SIGSTOP of the first thread is waited for. */
  lemma PauseOutcome(m: Machine, t: Tid)
    ensures var r := PauseProcess(m);
            && !r.mayRun && r.requestedToSuspend && r.threads.Keys == m.threads.Keys
            && r == m.(threads := r.threads, mayRun := false, requestedToSuspend := true)
            && (t in m.threads ==>
                  r.threads[t] == if m.events == [] && (forall u :: u in m.threads ==> t <= u)
                                  then m.threads[t].(waitingSigstop := true) else m.threads[t])
  {
    if m.threads.Keys == {} {
      assert PauseProcess(m).threads == m.threads;
    } else {
      PauseFirst(m, t);
    }
  }

  lemma PauseFirst(m: Machine, t: Tid)
    requires m.threads.Keys != {}
    ensures var r, u := PauseProcess(m), Least(m.threads.Keys);
            && u in m.threads && (t in m.threads ==> (t == u <==> forall v :: v in m.threads ==> t <= v))
            && r == m.(threads := r.threads, mayRun := false, requestedToSuspend := true)
            && r.threads == if m.events == [] then m.threads[u := m.threads[u].(waitingSigstop := true)] else m.threads
  {
    if t in m.threads { LeastKey(m.threads.Keys, t); }
  }

  lemma LeastKey(s: set<Tid>, t: Tid)
    requires s != {} && t in s
    ensures t == Least(s) <==> forall u :: u in s ==> t <= u
  {
    var l := Least(s);
    assert IsLeast(l, s);
  }

  /** Only an event of a known thread, an exit, or the end of the process can be continued
      from; then no event is being handled any more. */
  lemma ContinueAccepted(m: Machine, ev: Option<Event>, conts: map<Tid, ContResult>)
    ensures var r := ContinueAfter(m, ev, conts);
            if ev.Some? && (ev.value.tid in m.threads || ev.value.eid == THREAD_EXIT || m.exited) then !r.m.inEvent
            else r == Thawed(m, false)
  {
    hide SettleThread;
    hide ThawAll;
    if ev.Some? && MayContinue(m, ev.value) {
      var m1 := if ev.value.tid in m.threads then SettleThread(m, ev.value, conts) else m;
      var m2 := m1.(inEvent := false);
      ThawEvent(Thawed(m2.(mayRun := !HasPendingEvents(m2)), true), SelectedSet(m2, NO_THREAD, true), conts);
    }
  }

  lemma {:induction false} ThawEvent(s: Thawed, todo: set<Tid>, conts: map<Tid, ContResult>)
    requires todo <= s.m.threads.Keys
    ensures ThawAll(s, todo, conts).m.inEvent == s.m.inEvent
    decreases |todo|
  {
    hide ThawOne;
    if todo != {} {
      var t := Least(todo);
      ThawLog(s, t, conts);
      ThawEvent(ThawOne(s, t, conts), todo - {t}, conts);
    }
  }

  /** Asking for a step marks the thread, and nothing else. */
  lemma StepRequested(m: Machine, t: Tid, into: bool)
    requires t in m.threads
    ensures var r := SetResumeMode(m, t, into);
            r.threads == (if into then m.threads[t := m.threads[t].(singleStep := true)] else m.threads)
            && r == m.(threads := r.threads)
  {
  }

  /** A suspension of one thread by the user is a freeze of it and one more in the user's
      count; the last continue thaws it. */
  lemma SuspendOutcome(m: Machine, t: Tid, env: Env)
    requires t in m.threads && KillsSucceed(env) && Freeze(m, t, false, env).done
    ensures var r := SuspendThread(m, t, env);
            t in r.threads ==>
              && !r.threads[t].IsRunning()
              && r.threads[t].suspendCount == m.threads[t].suspendCount + 1
              && r.threads[t].userSuspend == m.threads[t].userSuspend + 1
  {
    hide Freeze;
    FreezeStops(m, t, false, env, t);
  }

  // ---------------------------------------------------------------- the end of the process

  lemma SlayOneAt(s: Thawed, u: Tid, failed: set<Tid>, t: Tid)
    requires u in s.m.threads && t in s.m.threads
    ensures var r := SlayOne(s, u, failed);
            && r.m == s.m.(threads := r.m.threads, kernel := r.m.kernel)
            && (r.ok <==> s.ok && u !in failed)
            && r.m.threads[t] == if t == u && r.ok then s.m.threads[t].(state := Running, suspendCount := 0)
                                 else s.m.threads[t]
  {
    hide Released;
  }

  lemma {:induction false} SlayAllAt(s: Thawed, todo: set<Tid>, failed: set<Tid>, t: Tid)
    requires todo <= s.m.threads.Keys && t in s.m.threads
    ensures var r := SlayAll(s, todo, failed);
            && r.m == s.m.(threads := r.m.threads, kernel := r.m.kernel)
            && r.m.threads.Keys == s.m.threads.Keys
            && (r.ok <==> s.ok && todo !! failed)
            && r.m.threads[t] == (if s.ok && t in todo && (forall u :: u in todo && u <= t ==> u !in failed)
                                  then s.m.threads[t].(state := Running, suspendCount := 0) else s.m.threads[t])
    decreases |todo|
  {
    hide SlayOne;
    if todo != {} {
      var u := Least(todo);
      SlayOneAt(s, u, failed, t);
      SlayAllAt(SlayOne(s, u, failed), todo - {u}, failed, t);
      SlayFrom(s, todo, u, failed, t);
    }
  }

  lemma SlayFrom(s: Thawed, todo: set<Tid>, u: Tid, failed: set<Tid>, t: Tid)
    requires todo <= s.m.threads.Keys && todo != {} && u == Least(todo) && t in s.m.threads
    ensures todo !! failed <==> u !in failed && (todo - {u}) !! failed
    ensures t in todo && t != u ==>
              ((forall v :: v in todo && v <= t ==> v !in failed)
               <==> u !in failed && forall v :: v in todo - {u} && v <= t ==> v !in failed)
    ensures (forall v :: v in todo && v <= u ==> v !in failed) <==> u !in failed
  {
    assert u in todo && forall v :: v in todo ==> u <= v;
    assert forall v :: v in todo <==> v == u || v in todo - {u};
  }

  /** Ending the process: every thread up to the first that cannot be killed is let run to its
      end without suspensions, and the process is forgotten exactly when all could be. */
  lemma KillOutcome(m: Machine, env: Env, failed: set<Tid>, t: Tid)
    requires Freeze(m, NO_THREAD, true, env).done
    ensures var f, r := Freeze(m, NO_THREAD, true, env).m, ExitProcess(m, env, failed);
            && r.exited && r.mayRun && r.threads.Keys == f.threads.Keys && r.events == f.events
            && r.process == (if f.threads.Keys !! failed then None else f.process)
            && (t in f.threads ==>
                  r.threads[t] == if forall u :: u in f.threads && u <= t ==> u !in failed
                                  then f.threads[t].(state := Running, suspendCount := 0) else f.threads[t])
  {
    hide Freeze;
    hide SlayAll;
    var f := Freeze(m, NO_THREAD, true, env).m;
    if f.threads.Keys == {} {
      assert SlayAll(Thawed(f, true), {}, failed) == Thawed(f, true) by { SlayNobody(f, failed); }
    } else {
      SlayAllAt(Thawed(f, true), f.threads.Keys, failed, Least(f.threads.Keys));
      if t in f.threads { SlayAllAt(Thawed(f, true), f.threads.Keys, failed, t); }
    }
  }

  lemma SlayNobody(m: Machine, failed: set<Tid>)
    ensures SlayAll(Thawed(m, true), {}, failed) == Thawed(m, true)
  {
  }

  /** A detached process is told to the client behind everything queued, and nothing is left
      of it; a detach that fails changes nothing. */
  lemma DetachOutcome(m: Machine, ok: bool)
    ensures var r, pid := Detach(m, ok), ProcessId(m);
            if !ok then r == m
            else && r.events == m.events + [Event(PROCESS_DETACH, pid, pid, BADADDR, true, NoPayload)]
                 && r.threads == map[] && r.process == None && r.exited && !r.inEvent && !r.mayRun
  {
  }

  // The events at the end of the queue of a started process.
  function Started(pid: Tid, attach: bool): seq<Event> {
    var start := Event(PROCESS_START, pid, pid, BADADDR, true, NoPayload);
    if attach then [start, Event(PROCESS_ATTACH, pid, pid, BADADDR, true, NoPayload)] else [start]
  }

  lemma StartQueue(m: Machine, pid: Tid, attach: bool)
    ensures var start := Event(PROCESS_START, pid, pid, BADADDR, true, NoPayload);
            var m1 := Enqueue(m, start, InBack);
            var r := if attach then Enqueue(m1, start.(eid := PROCESS_ATTACH), InBack) else m1;
            r == m.(events := m.events + Started(pid, attach), mayRun := false)
  {
  }

  /** A started process has its first thread in the table, stopped, and the application is
      held; PROCESS_START follows what the interpreter brought, and PROCESS_ATTACH that. */
  lemma StartOutcome(m: Machine, pid: Tid, hasMaps: bool, steps: seq<SideStep>, attach: bool)
    ensures var r := StartProcess(m, pid, hasMaps, steps, attach);
            var m1 := m.(deleted := [], process := Some(pid), mayRun := false,
                         threads := if pid in m.threads then m.threads else m.threads[pid := NEW_THREAD],
                         kernel := m.kernel.(stopped := m.kernel.stopped + {pid}));
            var m2 := SideEffects(Stepped(m1, []), steps).m;
            && pid in r.threads && r.process == Some(pid) && !r.mayRun
            && r == if hasMaps then m2.(events := m2.events + Started(pid, attach), mayRun := false) else m1
  {
    hide SideEffects;
    hide Enqueue;
    hide Started;
    var m1 := m.(deleted := [], process := Some(pid), mayRun := false,
                 threads := if pid in m.threads then m.threads else m.threads[pid := NEW_THREAD],
                 kernel := m.kernel.(stopped := m.kernel.stopped + {pid}));
    StepsKeepProcess(Stepped(m1, []), steps);
    StartQueue(SideEffects(Stepped(m1, []), steps).m, pid, attach);
  }

  lemma {:induction false} StepsKeepProcess(s: Stepped, steps: seq<SideStep>)
    ensures SideEffects(s, steps).m.process == s.m.process
    decreases |steps|
  {
    hide SideEffect;
    if steps != [] {
      StepKeepsProcess(s, steps[0]);
      StepsKeepProcess(SideEffect(s, steps[0]), steps[1..]);
    }
  }

  lemma StepKeepsProcess(s: Stepped, step: SideStep)
    ensures SideEffect(s, step).m.process == s.m.process
  {
    hide StorePending;
    if step.Birth? && step.tid !in s.m.threads {
      var r := NextReport(s.waits);
      var m1 := Enqueue(AddThread(s.m, step.tid), ThreadEvent(s.m, THREAD_START, step.tid), InFront);
      StoreFlags(Heard(Awaiting(m1, step.tid), r), r.pid, r.status);
    }
  }

  /** The end of a session leaves nothing of it: the next one starts as the first did, with the
      exception table empty, apart from what only the kernel's side remembers. */
  lemma TerminateOutcome(m: Machine, env: Env, failed: set<Tid>)
    ensures var r := Terminate(m, env, failed);
            && r.threads == map[] && r.events == [] && r.npending == 0 && r.process == None && r.exceptions == map[]
            && !r.requestedToSuspend && !r.inEvent && !r.exited && r.kernel.stopped == {}
  {
    hide ExitProcess;
  }
}
