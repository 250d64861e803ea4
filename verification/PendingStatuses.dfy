/** What becomes of a status that is stored for later: it is neither lost nor altered.  Over
    any run without another report of its thread it stays where it is until it is
    delivered, and what is delivered is the status that was stored. */
module PendingStatuses {
  import opened DebugEvents
  import opened LeastElement
  import opened ThreadMachine
  import opened ThreadOps

  // Status st waits in thread t, which has not ended.
  predicate Holds(m: Machine, t: Tid, st: WaitStatus) {
    t in m.threads && m.threads[t].gotPending && m.threads[t].pendingStatus == st && m.threads[t].state != Dead
  }

  // ---------------------------------------------------------------- storing and delivering

  /** A report of a known thread is stored as it is, unless it is the SIGSTOP the thread is
      waited for; it is counted once, and nothing else in the table changes. */
  lemma StoredIff(m: Machine, t: Tid, st: WaitStatus)
    requires t in m.threads && m.threads[t].state != Dead
    ensures var r := StorePending(m, t, st);
            && r.threads == m.threads[t := r.threads[t]] && r.deleted == m.deleted && r.seen == m.seen
            && if m.threads[t].waitingSigstop && st.StoppedBy? && st.sig == SIGSTOP
               then r.npending == m.npending && r.threads[t] == m.threads[t].(waitingSigstop := false, state := Stopped)
               else r.npending == m.npending + 1 && Holds(r, t, st)
                    && r.threads[t] == m.threads[t].(gotPending := true, pendingStatus := st)
  {
  }

  /** What is delivered is the status that was stored, of a thread without suspensions; it is
      taken from that thread and counted once, and nothing else changes. */
  lemma DeliveredIff(m: Machine, t: Tid, st: WaitStatus)
    ensures var (r, found) := RetrievePending(m);
            && (found == Some(Report(t, st)) ==>
                  && t in m.threads && m.threads[t].gotPending && m.threads[t].pendingStatus == st
                  && m.threads[t].suspendCount == 0 && m.threads[t].userSuspend == 0
                  && r == m.(threads := m.threads[t := m.threads[t].(gotPending := false)], npending := m.npending - 1))
            && (found == None ==> r == m)
            && (found.Some? && found.value.pid == t && Holds(m, t, st) ==> found.value.status == st)
            && (found.Some? && found.value.pid != t && Holds(m, t, st) ==> Holds(r, t, st))
  {
    var d := DeliverableSet(m);
    if d != {} { assert Least(d) in d; }
  }

  // ---------------------------------------------------------------- single steps

  lemma SameThreads(m: Machine, r: Machine, t: Tid, st: WaitStatus)
    requires Holds(m, t, st) && r.threads == m.threads
    ensures Holds(r, t, st)
  {
  }

  lemma SetHolds(m: Machine, u: Tid, th: Thread, t: Tid, st: WaitStatus)
    requires Holds(m, t, st)
    requires u == t ==> th.gotPending && th.pendingStatus == st && th.state != Dead
    ensures Holds(SetThread(m, u, th), t, st)
  {
  }

  lemma DeadHolds(m: Machine, u: Tid, state: ThreadState, t: Tid, st: WaitStatus)
    requires Holds(m, t, st) && (u == t ==> state == Dying)
    ensures Holds(DeadThread(m, u, state), t, st)
  {
  }

  lemma StoreHolds(m: Machine, pid: Tid, status: WaitStatus, t: Tid, st: WaitStatus)
    requires Holds(m, t, st) && pid != t
    ensures Holds(StorePending(m, pid, status), t, st)
  {
    hide StorePending;
    StorePendingThread(m, pid, status, t);
  }

  lemma AddHolds(m: Machine, u: Tid, t: Tid, st: WaitStatus)
    requires Holds(m, t, st)
    ensures Holds(AddThread(m, u), t, st)
  {
  }

  // ---------------------------------------------------------------- freeze

  lemma {:induction false} KillAllHolds(s: Signalling, todo: set<Tid>, kills: map<Tid, KillResult>,
                                        t: Tid, st: WaitStatus)
    requires Holds(s.m, t, st) && t !in s.dead && todo <= s.m.threads.Keys
    ensures var r := KillAll(s, todo, kills); Holds(r.m, t, st) && t !in r.dead
    decreases |todo|
  {
    hide KillOne;
    if todo != {} {
      var u := Least(todo);
      KillOneHolds(s, u, kills, t, st);
      KillAllHolds(KillOne(s, u, kills), todo - {u}, kills, t, st);
    }
  }

  lemma KillOneHolds(s: Signalling, u: Tid, kills: map<Tid, KillResult>, t: Tid, st: WaitStatus)
    requires Holds(s.m, t, st) && t !in s.dead && u in s.m.threads
    ensures var r := KillOne(s, u, kills);
            Holds(r.m, t, st) && t !in r.dead && r.m.threads.Keys == s.m.threads.Keys
  {
  }

  // No report of t is among the ones to come.
  predicate Unreported(waits: seq<Report>, t: Tid) {
    forall r :: r in waits ==> r.pid != t
  }

  lemma UnreportedRest(waits: seq<Report>, t: Tid)
    requires Unreported(waits, t)
    ensures Unreported(Rest(waits), t) && (waits != [] ==> NextReport(waits).pid != t)
  {
  }

  lemma WaitOneHolds(w: Waiting, t: Tid, st: WaitStatus)
    requires Holds(w.m, t, st) && Unreported(w.waits, t) && w.queue <= w.m.threads.Keys && w.waits != []
    ensures Holds(WaitOne(w).m, t, st) && Unreported(WaitOne(w).waits, t)
  {
    hide StorePending;
    hide Heard;
    UnreportedRest(w.waits, t);
    var Report(pid, status) := w.waits[0];
    var m := Heard(w.m, w.waits[0]);
    StoreHolds(m, pid, status, t, st);
  }

  lemma {:induction false} WaitAllHolds(w: Waiting, t: Tid, st: WaitStatus)
    requires Holds(w.m, t, st) && Unreported(w.waits, t) && w.queue <= w.m.threads.Keys
    ensures Holds(WaitAll(w).m, t, st) && Unreported(WaitAll(w).waits, t)
    decreases |w.waits|
  {
    hide WaitOne;
    hide Holds;
    if w.queue != {} && w.waits != [] {
      WaitOneHolds(w, t, st);
      WaitAllHolds(WaitOne(w), t, st);
    }
  }

  lemma {:induction false} ReapHolds(m: Machine, dead: seq<Tid>, t: Tid, st: WaitStatus)
    requires Holds(m, t, st) && t !in dead
    ensures Holds(ReapAll(m, dead), t, st)
    decreases |dead|
  {
    hide DeadThread;
    if dead != [] {
      DeadHolds(m, dead[0], Dead, t, st);
      ReapHolds(DeadThread(m, dead[0], Dead), dead[1..], t, st);
    }
  }

  lemma FreezeHolds(m: Machine, tid: Tid, exclude: bool, env: Env, t: Tid, st: WaitStatus)
    requires Holds(m, t, st) && Unreported(env.waits, t)
    ensures var f := Freeze(m, tid, exclude, env); Holds(f.m, t, st) && Unreported(f.waits, t)
  {
    hide KillAll;
    hide WaitAll;
    hide ReapAll;
    hide Unreported;
    var s0 := Signalling(m, {}, []);
    KillAllHolds(s0, SelectedSet(m, tid, exclude), env.kills, t, st);
    KillAllQueue(s0, SelectedSet(m, tid, exclude), env.kills);
    var s := Signal(m, tid, exclude, env);
    WaitAllHolds(Waiting(s.m, s.queue, env.waits), t, st);
    ReapHolds(WaitAll(Waiting(s.m, s.queue, env.waits)).m, s.dead, t, st);
  }

  // ---------------------------------------------------------------- thaw

  lemma ThawOneHolds(s: Thawed, u: Tid, conts: map<Tid, ContResult>, t: Tid, st: WaitStatus)
    requires Holds(s.m, t, st) && u in s.m.threads
    ensures Holds(ThawOne(s, u, conts).m, t, st)
  {
    hide Wake;
    hide ContOf;
  }

  lemma {:induction false} ThawAllHolds(s: Thawed, todo: set<Tid>, conts: map<Tid, ContResult>, t: Tid, st: WaitStatus)
    requires Holds(s.m, t, st) && todo <= s.m.threads.Keys
    ensures Holds(ThawAll(s, todo, conts).m, t, st)
    decreases |todo|
  {
    hide ThawOne;
    hide Holds;
    if todo != {} {
      var u := Least(todo);
      ThawOneHolds(s, u, conts, t, st);
      ThawAllHolds(ThawOne(s, u, conts), todo - {u}, conts, t, st);
    }
  }

  lemma ThawHolds(m: Machine, tid: Tid, exclude: bool, conts: map<Tid, ContResult>, t: Tid, st: WaitStatus)
    requires Holds(m, t, st)
    ensures Holds(Thaw(m, tid, exclude, conts).m, t, st)
  {
    ThawAllHolds(Thawed(m, true), SelectedSet(m, tid, exclude), conts, t, st);
  }

  lemma ResumeHolds(m: Machine, conts: map<Tid, ContResult>, t: Tid, st: WaitStatus)
    requires Holds(m, t, st)
    ensures Holds(ResumeApp(m, conts).m, t, st)
  {
    hide Thaw;
    ThawHolds(m.(mayRun := !HasPendingEvents(m)), NO_THREAD, true, conts, t, st);
  }

  lemma SettleHolds(m: Machine, ev: Event, conts: map<Tid, ContResult>, t: Tid, st: WaitStatus)
    requires Holds(m, t, st) && ev.tid in m.threads
    ensures Holds(SettleThread(m, ev, conts), t, st)
  {
    hide Thaw;
    hide KeepsSignal;
    hide DelThread;
    hide SetThread;
    hide Holds;
    var u := ev.tid;
    var th := m.threads[u].(childSignum := if KeepsSignal(ev) then m.threads[u].childSignum else 0);
    SameStatus(m, u, th, t, st);
    SameStatus(m, u, th.(suspendCount := 0, userSuspend := 0), t, st);
    ThawHolds(SetThread(m, u, th.(suspendCount := 0, userSuspend := 0)), u, false, conts, t, st);
    if th.state == Dead { BuryHolds(m, u, th, t, st); }
  }

  lemma SameStatus(m: Machine, u: Tid, th: Thread, t: Tid, st: WaitStatus)
    requires Holds(m, t, st) && u in m.threads && th.gotPending == m.threads[u].gotPending
    requires th.pendingStatus == m.threads[u].pendingStatus && th.state == m.threads[u].state
    ensures Holds(SetThread(m, u, th), t, st)
  {
  }

  lemma BuryHolds(m: Machine, u: Tid, th: Thread, t: Tid, st: WaitStatus)
    requires Holds(m, t, st) && u in m.threads && m.threads[u].state == Dead
    ensures Holds(DelThread(SetThread(m, u, th), u), t, st)
  {
  }

  lemma ContinueHolds(m: Machine, ev: Option<Event>, conts: map<Tid, ContResult>, t: Tid, st: WaitStatus)
    requires Holds(m, t, st)
    ensures Holds(ContinueAfter(m, ev, conts).m, t, st)
  {
    hide SettleThread;
    hide ResumeApp;
    if ev.Some? && MayContinue(m, ev.value) {
      if ev.value.tid in m.threads { SettleHolds(m, ev.value, conts, t, st); }
      var m1 := if ev.value.tid in m.threads then SettleThread(m, ev.value, conts) else m;
      ResumeHolds(m1.(inEvent := false), conts, t, st);
    }
  }

  // ---------------------------------------------------------------- new threads and libraries

  lemma AwaitHolds(m: Machine, u: Tid, waits: seq<Report>, t: Tid, st: WaitStatus)
    requires Holds(m, t, st) && Unreported(waits, t) && u in m.threads
    ensures var s := AwaitStop(m, u, waits); Holds(s.m, t, st) && Unreported(s.waits, t)
  {
    hide StorePending;
    hide Heard;
    UnreportedRest(waits, t);
    if waits != [] {
      var r, m1 := waits[0], Awaiting(m, u);
      assert Holds(m1, t, st);
      StoreHolds(Heard(m1, r), r.pid, r.status, t, st);
    }
  }

  lemma SideEffectHolds(s: Stepped, step: SideStep, t: Tid, st: WaitStatus)
    requires Holds(s.m, t, st) && Unreported(s.waits, t)
    ensures var r := SideEffect(s, step); Holds(r.m, t, st) && Unreported(r.waits, t)
  {
    hide AwaitStop;
    hide Unreported;
    match step
    case DropLoad(name) =>
    case Library(ev) =>
    case Birth(u) =>
      if u !in s.m.threads {
        AddHolds(s.m, u, t, st);
        var m1 := Enqueue(AddThread(s.m, u), ThreadEvent(s.m, THREAD_START, u), InFront);
        AwaitHolds(m1, u, s.waits, t, st);
      }
    case Death(u) => DeadHolds(s.m, u, Dying, t, st);
  }

  lemma {:induction false} SideEffectsHold(s: Stepped, steps: seq<SideStep>, t: Tid, st: WaitStatus)
    requires Holds(s.m, t, st) && Unreported(s.waits, t)
    ensures Holds(SideEffects(s, steps).m, t, st)
    decreases |steps|
  {
    hide SideEffect;
    hide Holds;
    if steps != [] {
      SideEffectHolds(s, steps[0], t, st);
      SideEffectsHold(SideEffect(s, steps[0]), steps[1..], t, st);
    }
  }

  lemma ExtendedHolds(m: Machine, r: Report, waits: seq<Report>, t: Tid, st: WaitStatus)
    requires Holds(m, t, st) && Unreported(waits, t)
    ensures var x := HandleExtendedWait(m, r, waits); Holds(x.m, t, st) && Unreported(x.waits, t)
  {
    hide AwaitStop;
    hide AddThread;
    hide Unreported;
    if r.status.StoppedBy? && r.status.clone.Some? {
      var u := r.status.clone.value;
      AddHolds(m, u, t, st);
      AwaitHolds(AddThread(m, u), u, waits, t, st);
    }
  }

  // ---------------------------------------------------------------- looking for a status

  // The status has been found, or is still there.
  predicate FoundOrHolds(c: Checked, t: Tid, st: WaitStatus) {
    && Unreported(c.waits, t)
    && (c.found == Some(Report(t, st)) || (Holds(c.m, t, st) && (c.found.Some? ==> c.found.value.pid != t)))
  }

  lemma CheckHolds(m: Machine, waits: seq<Report>, noTimeout: bool, t: Tid, st: WaitStatus)
    requires Holds(m, t, st) && Unreported(waits, t)
    ensures FoundOrHolds(CheckNewEvents(m, waits, noTimeout), t, st)
    decreases |waits|, 0
  {
    hide RetrievePending;
    hide HandleExtendedWait;
    hide Holds;
    hide Unreported;
    var r0, w0 := NextReport(waits), Rest(waits);
    UnreportedRest(waits, t);
    if r0.pid > 0 {
      TakeHolds(m, r0, w0, t, st);
    } else {
      DeliveredIff(m, t, st);
      RetrievedSome(m, t, st);
      var (m1, pending) := RetrievePending(m);
      if pending.Some? {
        if pending != Some(Report(t, st)) { ExtendedHolds(m1, pending.value, w0, t, st); }
        ExtendedWaits(m1, pending.value, w0, t);
      } else {
        UnreportedRest(w0, t);
        if !noTimeout && NextReport(w0).pid > 0 { TakeHolds(m, NextReport(w0), Rest(w0), t, st); }
      }
    }
  }

  lemma RetrievedSome(m: Machine, t: Tid, st: WaitStatus)
    requires Holds(m, t, st)
    ensures var (r, found) := RetrievePending(m);
            found == Some(Report(t, st)) || (Holds(r, t, st) && (found.Some? ==> found.value.pid != t))
  {
    DeliveredIff(m, t, st);
  }

  lemma ExtendedWaits(m: Machine, r: Report, waits: seq<Report>, t: Tid)
    requires Unreported(waits, t)
    ensures Unreported(HandleExtendedWait(m, r, waits).waits, t)
  {
    UnreportedRest(waits, t);
  }

  lemma TakeHolds(m: Machine, r: Report, waits: seq<Report>, t: Tid, st: WaitStatus)
    requires Holds(m, t, st) && Unreported(waits, t) && r.pid != t
    ensures FoundOrHolds(TakeReport(m, r, waits), t, st)
    decreases |waits|, 1
  {
    hide Heard;
    hide HandleExtendedWait;
    hide StorePending;
    hide Holds;
    hide Unreported;
    SameThreads(m, Heard(m, r), t, st);
    ExtendedHolds(Heard(m, r), r, waits, t, st);
    var x := HandleExtendedWait(Heard(m, r), r, waits);
    if r.pid !in x.m.threads {
      SameThreads(x.m, Released(x.m, r.pid), t, st);
      StoreHolds(x.m, r.pid, r.status, t, st);
      var m1 := if r.pid in x.m.deleted then Released(x.m, r.pid) else StorePending(x.m, r.pid, r.status);
      CheckHolds(m1, x.waits, true, t, st);
    }
  }

  // A report that was to come, or the status that a thread held.
  predicate Genuine(m: Machine, waits: seq<Report>, r: Report) {
    r in waits || (r.pid in m.threads && m.threads[r.pid].gotPending && m.threads[r.pid].pendingStatus == r.status)
  }

  // Every status in the table of r comes from there.
  ghost predicate AllGenuine(r: Machine, m: Machine, waits: seq<Report>) {
    forall u :: u in r.threads && r.threads[u].gotPending ==> Genuine(m, waits, Report(u, r.threads[u].pendingStatus))
  }

  predicate Among(rest: seq<Report>, waits: seq<Report>) {
    forall r :: r in rest ==> r in waits
  }

  lemma ReportGenuine(m: Machine, waits: seq<Report>, r: Report)
    requires r in waits
    ensures Genuine(m, waits, r)
  {
  }

  lemma StoreGenuine(x: Machine, r: Report, m: Machine, waits: seq<Report>)
    requires AllGenuine(x, m, waits) && r in waits
    ensures AllGenuine(StorePending(x, r.pid, r.status), m, waits)
  {
    hide StorePending;
    hide Genuine;
    var z := StorePending(x, r.pid, r.status);
    ReportGenuine(m, waits, r);
    forall u | u in z.threads && z.threads[u].gotPending
      ensures Genuine(m, waits, Report(u, z.threads[u].pendingStatus))
    {
      StorePendingThread(x, r.pid, r.status, u);
      if u == r.pid && z.threads[u].pendingStatus != x.threads[u].pendingStatus {
        assert Report(u, z.threads[u].pendingStatus) == r;
      }
    }
  }

  lemma AwaitGenuine(x: Machine, u: Tid, rest: seq<Report>, m: Machine, waits: seq<Report>)
    requires AllGenuine(x, m, waits) && Among(rest, waits) && u in x.threads
    ensures var z := AwaitStop(x, u, rest); AllGenuine(z.m, m, waits) && Among(z.waits, waits)
  {
    hide StorePending;
    hide Heard;
    hide Genuine;
    var m1 := Awaiting(x, u);
    assert AllGenuine(m1, m, waits);
    if rest != [] {
      var h := Heard(m1, rest[0]);
      assert AllGenuine(h, m, waits);
      StoreGenuine(h, rest[0], m, waits);
    }
  }

  lemma ExtendedGenuine(x: Machine, r: Report, rest: seq<Report>, m: Machine, waits: seq<Report>)
    requires AllGenuine(x, m, waits) && Among(rest, waits)
    ensures var z := HandleExtendedWait(x, r, rest); AllGenuine(z.m, m, waits) && Among(z.waits, waits)
  {
    hide AwaitStop;
    hide Genuine;
    if r.status.StoppedBy? && r.status.clone.Some? {
      var u := r.status.clone.value;
      assert AllGenuine(AddThread(x, u), m, waits);
      AwaitGenuine(AddThread(x, u), u, rest, m, waits);
    }
  }

  lemma CheckGenuine(x: Machine, rest: seq<Report>, noTimeout: bool, m: Machine, waits: seq<Report>)
    requires AllGenuine(x, m, waits) && Among(rest, waits)
    ensures var c := CheckNewEvents(x, rest, noTimeout); c.found.Some? ==> Genuine(m, waits, c.found.value)
    decreases |rest|, 0
  {
    hide RetrievePending;
    hide HandleExtendedWait;
    hide Genuine;
    var r0, w0 := NextReport(rest), Rest(rest);
    if r0.pid > 0 {
      TakeGenuine(x, r0, w0, m, waits);
    } else {
      RetrievedGenuine(x, m, waits);
      var (m1, pending) := RetrievePending(x);
      if pending.None? && !noTimeout && NextReport(w0).pid > 0 {
        TakeGenuine(m1, NextReport(w0), Rest(w0), m, waits);
      }
    }
  }

  lemma RetrievedGenuine(x: Machine, m: Machine, waits: seq<Report>)
    requires AllGenuine(x, m, waits)
    ensures var (z, found) := RetrievePending(x);
            (found.Some? ==> Genuine(m, waits, found.value)) && (found.None? ==> z == x)
  {
    hide Genuine;
    var d := DeliverableSet(x);
    if d != {} { assert Least(d) in d; }
  }

  lemma TakeGenuine(x: Machine, r: Report, rest: seq<Report>, m: Machine, waits: seq<Report>)
    requires AllGenuine(x, m, waits) && Among(rest, waits) && r in waits
    ensures var c := TakeReport(x, r, rest); c.found.Some? ==> Genuine(m, waits, c.found.value)
    decreases |rest|, 1
  {
    hide Heard;
    hide StorePending;
    hide HandleExtendedWait;
    hide Genuine;
    var h := Heard(x, r);
    assert AllGenuine(h, m, waits);
    ReportGenuine(m, waits, r);
    ExtendedGenuine(h, r, rest, m, waits);
    var z := HandleExtendedWait(h, r, rest);
    if r.pid !in z.m.threads {
      StoreGenuine(z.m, r, m, waits);
      var m1 := if r.pid in z.m.deleted then Released(z.m, r.pid) else StorePending(z.m, r.pid, r.status);
      CheckGenuine(m1, z.waits, true, m, waits);
    }
  }

  /** What is found is a report of the kernel as it came, or the status that was stored for
      its thread. */
  lemma FoundGenuine(m: Machine, waits: seq<Report>, noTimeout: bool)
    ensures var c := CheckNewEvents(m, waits, noTimeout);
            c.found.Some? ==>
              var r := c.found.value;
              || r in waits
              || (r.pid in m.threads && m.threads[r.pid].gotPending && m.threads[r.pid].pendingStatus == r.status)
  {
    hide CheckNewEvents;
    assert AllGenuine(m, m, waits) && Among(waits, waits);
    CheckGenuine(m, waits, noTimeout, m, waits);
  }

  // ---------------------------------------------------------------- events

  lemma HaltHolds(m: Machine, u: Tid, env: Env, t: Tid, st: WaitStatus)
    requires Holds(m, t, st) && Unreported(env.waits, t) && u in m.threads
    ensures var f := Halt(m, u, env); Holds(f.m, t, st) && Unreported(f.waits, t)
  {
    hide Freeze;
    hide Unreported;
    var th := m.threads[u].(state := Stopped);
    SetHolds(m, u, th, t, st);
    FreezeHolds(SetThread(m, u, th), NO_THREAD, true, env, t, st);
  }

  lemma SilentlyHolds(m: Machine, ev: Event, conts: map<Tid, ContResult>, t: Tid, st: WaitStatus)
    requires Holds(m, t, st)
    ensures Holds(Silently(m, ev, conts).m, t, st)
  {
    hide ResumeApp;
    hide Holds;
    ResumeHolds(m, conts, t, st);
  }

  lemma ReadyHolds(m: Machine, u: Tid, ev: Event, t: Tid, st: WaitStatus)
    requires Holds(m, t, st)
    ensures Holds(Ready(m, u, ev).m, t, st)
  {
  }

  lemma DeliverHolds(m: Machine, u: Tid, code: nat, suspend: bool, ev: Event, conts: map<Tid, ContResult>,
                     t: Tid, st: WaitStatus)
    requires Holds(m, t, st) && u in m.threads
    ensures Holds(Deliver(m, u, code, suspend, ev, conts).m, t, st)
  {
    hide Silently;
    hide Ready;
    hide Holds;
    var m1 := SetThread(m, u, m.threads[u].(childSignum := code));
    SameStatus(m, u, m.threads[u].(childSignum := code), t, st);
    SilentlyHolds(m1, ev, conts, t, st);
    ReadyHolds(m1, u, ev, t, st);
  }

  lemma BptHolds(m: Machine, m1: Machine, u: Tid, ea: word, suspend: bool, code: nat, ev: Event, rd: Round,
                 t: Tid, st: WaitStatus)
    requires Holds(m, t, st) && Holds(m1, t, st) && u in m1.threads
    ensures Holds(BptEvent(m, m1, u, ea, suspend, code, ev, rd).m, t, st)
  {
    hide Silently;
    hide Deliver;
    hide Holds;
    SilentlyHolds(m1, ev, rd.env.conts, t, st);
    forall c: nat, e: Event ensures Holds(Deliver(m1, u, c, suspend, e, rd.env.conts).m, t, st) {
      DeliverHolds(m1, u, c, suspend, e, rd.env.conts, t, st);
    }
  }

  lemma StopHolds(m: Machine, u: Tid, sig: nat, rd: Round, waits: seq<Report>, base: Event, t: Tid, st: WaitStatus)
    requires Holds(m, t, st) && Unreported(waits, t) && u in m.threads
    ensures Holds(StopEvent(m, u, sig, rd, waits, base).m, t, st)
  {
    hide Silently;
    hide Deliver;
    hide BptEvent;
    hide Holds;
    hide SideEffects;
    hide BptAddress;
    SideEffectsHold(Stepped(m, waits), rd.cause.steps, t, st);
    SameStatus(m, u, m.threads[u].(waitingSigstop := false), t, st);
    var m1 := SideEffects(Stepped(m, waits), rd.cause.steps).m;
    forall e: Event, suspend: bool, code: nat, ea: word
      ensures Holds(BptEvent(m, m1, u, ea, suspend, code, e, rd).m, t, st)
    {
      BptHolds(m, m1, u, ea, suspend, code, e, rd, t, st);
    }
    forall e: Event, suspend: bool, code: nat
      ensures Holds(Deliver(m, u, code, suspend, e, rd.env.conts).m, t, st)
    {
      DeliverHolds(m, u, code, suspend, e, rd.env.conts, t, st);
    }
    var m2 := SetThread(m, u, m.threads[u].(waitingSigstop := false));
    forall e: Event ensures Holds(Silently(m2, e, rd.env.conts).m, t, st) {
      SilentlyHolds(m2, e, rd.env.conts, t, st);
    }
  }

  lemma ExitHolds(m: Machine, u: Tid, status: WaitStatus, base: Event, t: Tid, st: WaitStatus)
    requires Holds(m, t, st) && u in m.threads && u != t
    ensures Holds(ExitEvent(m, u, status, base).m, t, st)
  {
    hide Ready;
    hide DeadThread;
    hide Holds;
    SameThreads(m, m.(exited := true), t, st);
    DeadHolds(m, u, Dead, t, st);
    forall e: Event
      ensures Holds(Ready(m.(exited := true), u, e).m, t, st) && Holds(Ready(DeadThread(m, u, Dead), u, e).m, t, st)
    {
      ReadyHolds(m.(exited := true), u, e, t, st);
      ReadyHolds(DeadThread(m, u, Dead), u, e, t, st);
    }
  }

  lemma PrepareHolds(m: Machine, r: Report, prepared: bool, rd: Round, waits: seq<Report>, t: Tid, st: WaitStatus)
    requires Holds(m, t, st) && Unreported(waits, t) && r.pid in m.threads && r.pid != t
    ensures Holds(PrepareEvent(m, r, prepared, rd, waits).m, t, st)
  {
    hide Ready;
    hide StopEvent;
    hide ExitEvent;
    hide Holds;
    hide Unreported;
    var base := Event(NO_EVENT, ProcessId(m), r.pid, if m.exited then BADADDR else rd.ip, false, NoPayload);
    ReadyHolds(m, r.pid, Event(NO_EVENT, 0, NO_THREAD, 0, false, NoPayload), t, st);
    if r.status.StoppedBy? { StopHolds(m, r.pid, r.status.sig, rd, waits, base, t, st); }
    ExitHolds(m, r.pid, r.status, base, t, st);
  }

  // The pass finds the status.
  ghost predicate Delivers(m: Machine, rd: Round, t: Tid, st: WaitStatus) {
    CheckNewEvents(m, rd.env.waits, rd.noTimeout).found == Some(Report(t, st))
  }

  lemma GetHolds(m: Machine, rd: Round, t: Tid, st: WaitStatus)
    requires Holds(m, t, st) && Unreported(rd.env.waits, t)
    ensures Delivers(m, rd, t, st) || Holds(GetDebugEvent(m, rd).m, t, st)
  {
    hide CheckNewEvents;
    hide NotStopped;
    hide Halt;
    hide PrepareEvent;
    hide Holds;
    hide Unreported;
    CheckHolds(m, rd.env.waits, rd.noTimeout, t, st);
    var c := CheckNewEvents(m, rd.env.waits, rd.noTimeout);
    if !Delivers(m, rd, t, st) && c.found.Some? && c.found.value.pid in c.m.threads {
      var r := c.found.value;
      var m1 := NotStopped(c.m, r);
      SameThreads(c.m, m1, t, st);
      HaltHolds(m1, r.pid, rd.env.(waits := c.waits), t, st);
      var f := Halt(m1, r.pid, rd.env.(waits := c.waits));
      if f.done { PrepareHolds(f.m, r, c.prepared, rd, f.waits, t, st); }
    }
  }

  ghost predicate FetchDelivers(m: Machine, rounds: seq<Round>, t: Tid, st: WaitStatus)
    decreases |rounds|
  {
    && m.events == [] && rounds != []
    && (Delivers(m, rounds[0], t, st) ||
        (var g := GetDebugEvent(m, rounds[0]);
         g.ev.Some? && FetchDelivers(Enqueue(g.m, g.ev.value, InBack), rounds[1..], t, st)))
  }

  predicate RoundsSilent(rounds: seq<Round>, t: Tid) {
    forall rd :: rd in rounds ==> Unreported(rd.env.waits, t)
  }

  lemma {:induction false} FetchHolds(m: Machine, rounds: seq<Round>, t: Tid, st: WaitStatus)
    requires Holds(m, t, st) && RoundsSilent(rounds, t)
    ensures FetchDelivers(m, rounds, t, st) || Holds(FetchEvent(m, rounds).m, t, st)
    decreases |rounds|
  {
    hide GetDebugEvent;
    hide Delivers;
    hide Enqueue;
    if m.events == [] && rounds != [] {
      assert rounds[0] in rounds;
      GetHolds(m, rounds[0], t, st);
      var g := GetDebugEvent(m, rounds[0]);
      if !Delivers(m, rounds[0], t, st) && g.ev.Some? {
        SameThreads(g.m, Enqueue(g.m, g.ev.value, InBack), t, st);
        FetchHolds(Enqueue(g.m, g.ev.value, InBack), rounds[1..], t, st);
      }
    }
  }

  // ---------------------------------------------------------------- runs

  lemma AccessHolds(m: Machine, env: Env, t: Tid, st: WaitStatus)
    requires Holds(m, t, st) && Unreported(env.waits, t)
    ensures Holds(AccessMemory(m, env), t, st)
  {
    hide Freeze;
    hide Thaw;
    hide Holds;
    FreezeHolds(m, NO_THREAD, true, env, t, st);
    ThawHolds(Freeze(m, NO_THREAD, true, env).m, NO_THREAD, true, env.conts, t, st);
  }

  predicate EnvsSilent(envs: seq<Env>, t: Tid) {
    forall e :: e in envs ==> Unreported(e.waits, t)
  }

  lemma {:induction false} AccessAllHolds(m: Machine, envs: seq<Env>, t: Tid, st: WaitStatus)
    requires Holds(m, t, st) && EnvsSilent(envs, t)
    ensures Holds(AccessAll(m, envs), t, st)
    decreases |envs|
  {
    hide AccessMemory;
    hide Holds;
    if envs != [] {
      AccessHolds(m, envs[0], t, st);
      AccessAllHolds(AccessMemory(m, envs[0]), envs[1..], t, st);
    }
  }

  lemma SuspendHolds(m: Machine, u: Tid, env: Env, t: Tid, st: WaitStatus)
    requires Holds(m, t, st) && Unreported(env.waits, t)
    ensures Holds(SuspendThread(m, u, env), t, st)
  {
    hide Freeze;
    FreezeHolds(m, u, false, env, t, st);
  }

  lemma ContinueThreadHolds(m: Machine, u: Tid, conts: map<Tid, ContResult>, t: Tid, st: WaitStatus)
    requires Holds(m, t, st)
    ensures Holds(ContinueThread(m, u, conts), t, st)
  {
    hide Thaw;
    hide Holds;
    hide SetThread;
    if u in m.threads {
      var th := m.threads[u];
      SameStatus(m, u, th.(userSuspend := 0), t, st);
      if th.userSuspend > 1 { SameStatus(m, u, th.(userSuspend := th.userSuspend - 1), t, st); }
      ThawHolds(SetThread(m, u, th.(userSuspend := 0)), u, false, conts, t, st);
    }
  }

  lemma {:induction false} SlayHolds(s: Thawed, todo: set<Tid>, failed: set<Tid>, t: Tid, st: WaitStatus)
    requires Holds(s.m, t, st) && todo <= s.m.threads.Keys
    ensures Holds(SlayAll(s, todo, failed).m, t, st)
    decreases |todo|
  {
    if todo != {} {
      var u := Least(todo);
      assert Holds(SlayOne(s, u, failed).m, t, st);
      SlayHolds(SlayOne(s, u, failed), todo - {u}, failed, t, st);
    }
  }

  lemma ExitProcessHolds(m: Machine, env: Env, failed: set<Tid>, t: Tid, st: WaitStatus)
    requires Holds(m, t, st) && Unreported(env.waits, t)
    ensures Holds(ExitProcess(m, env, failed), t, st)
  {
    hide Freeze;
    hide SlayAll;
    FreezeHolds(m, NO_THREAD, true, env, t, st);
    var f := Freeze(m, NO_THREAD, true, env);
    SlayHolds(Thawed(f.m, true), f.m.threads.Keys, failed, t, st);
  }

  lemma StartHolds(m: Machine, pid: Tid, hasMaps: bool, steps: seq<SideStep>, attach: bool, t: Tid, st: WaitStatus)
    requires Holds(m, t, st)
    ensures Holds(StartProcess(m, pid, hasMaps, steps, attach), t, st)
  {
    hide SideEffects;
    var m0 := m.(deleted := [], process := Some(pid), kernel := m.kernel.(stopped := m.kernel.stopped + {pid}));
    AddHolds(m0, pid, t, st);
    SideEffectsHold(Stepped(AddThread(m0, pid).(mayRun := false), []), steps, t, st);
  }

  lemma ReconnectHolds(m: Machine, pid: Tid, envs: seq<Env>, hasMaps: bool, steps: seq<SideStep>,
                       libraries: seq<SideStep>, t: Tid, st: WaitStatus)
    requires Holds(m, t, st) && EnvsSilent(envs, t)
    ensures Holds(Reconnect(m, pid, envs, hasMaps, steps, libraries), t, st)
  {
    hide StartProcess;
    hide AccessAll;
    hide SideEffects;
    hide Holds;
    SameThreads(m, m.(inEvent := false), t, st);
    AccessAllHolds(m.(inEvent := false), envs, t, st);
    var m0 := AccessAll(m.(inEvent := false), envs);
    StartHolds(m0, pid, hasMaps, steps, true, t, st);
    SideEffectsHold(Stepped(StartProcess(m0, pid, hasMaps, steps, true), []), libraries, t, st);
  }

  // The request brings no report of t and does not end the session.
  predicate Spares(op: Op, t: Tid) {
    match op
    case OpFetch(rounds) => RoundsSilent(rounds, t)
    case OpAccessMemory(env) => Unreported(env.waits, t)
    case OpSuspendThread(_, env) => Unreported(env.waits, t)
    case OpExit(env, _) => Unreported(env.waits, t)
    case OpDetach(ok) => !ok
    case OpReconnect(_, envs, _, _, _) => EnvsSilent(envs, t)
    case OpLibraries(_, waits) => Unreported(waits, t)
    case OpTerminate(_, _) => false
    case _ => true
  }

  // A pass of the request finds the status.
  ghost predicate OpDelivers(m: Machine, op: Op, t: Tid, st: WaitStatus) {
    op.OpFetch? && FetchDelivers(m, op.rounds, t, st)
  }

  lemma ApplyHolds(m: Machine, op: Op, t: Tid, st: WaitStatus)
    requires Holds(m, t, st) && Spares(op, t)
    ensures OpDelivers(m, op, t, st) || Holds(Apply(m, op), t, st)
  {
    hide Holds;
    hide FetchEvent;
    hide ContinueAfter;
    hide AccessMemory;
    hide SuspendThread;
    hide ContinueThread;
    hide ExitProcess;
    hide StartProcess;
    hide Reconnect;
    hide SideEffects;
    hide SetThread;
    match op
    case OpFetch(rounds) => FetchHolds(m, rounds, t, st);
    case OpContinue(ev, conts) => ContinueHolds(m, ev, conts, t, st);
    case OpAccessMemory(env) => AccessHolds(m, env, t, st);
    case OpSuspendThread(u, env) => SuspendHolds(m, u, env, t, st);
    case OpContinueThread(u, conts) => ContinueThreadHolds(m, u, conts, t, st);
    case OpResumeMode(u, into) => if u in m.threads { SameStatus(m, u, m.threads[u].(singleStep := true), t, st); }
    case OpPause => PauseHolds(m, t, st);
    case OpExit(env, failed) => ExitProcessHolds(m, env, failed, t, st);
    case OpDetach(ok) =>
    case OpStart(pid, hasMaps, steps, attach) => StartHolds(m, pid, hasMaps, steps, attach, t, st);
    case OpReconnect(pid, envs, hasMaps, steps, libraries) =>
      ReconnectHolds(m, pid, envs, hasMaps, steps, libraries, t, st);
    case OpLibraries(steps, waits) => SideEffectsHold(Stepped(m, waits), steps, t, st);
    case OpExceptions(table) => SameThreads(m, m.(exceptions := table), t, st);
  }

  lemma PauseHolds(m: Machine, t: Tid, st: WaitStatus)
    requires Holds(m, t, st)
    ensures Holds(PauseProcess(m), t, st)
  {
  }

  // Some pass of the run finds the status.
  ghost predicate RunDelivers(m: Machine, ops: seq<Op>, t: Tid, st: WaitStatus)
    decreases |ops|
  {
    ops != [] && (OpDelivers(m, ops[0], t, st) || RunDelivers(Apply(m, ops[0]), ops[1..], t, st))
  }

  /** No pending status is lost or altered: over any run of requests that bring no further
      report of the thread and do not end the session, the status is delivered as it was
      stored, or it is still in its thread. */
  lemma {:induction false} StatusNotLost(m: Machine, ops: seq<Op>, t: Tid, st: WaitStatus)
    requires Holds(m, t, st) && forall op :: op in ops ==> Spares(op, t)
    ensures RunDelivers(m, ops, t, st) || Holds(Run(m, ops), t, st)
    decreases |ops|
  {
    hide Holds;
    hide Apply;
    hide OpDelivers;
    hide Spares;
    if ops != [] {
      assert ops[0] in ops;
      ApplyHolds(m, ops[0], t, st);
      if !OpDelivers(m, ops[0], t, st) { StatusNotLost(Apply(m, ops[0]), ops[1..], t, st); }
    }
  }
}
