/** Freezes and thaws nest: what one freeze guarantees of every thread it
    selects, that equal numbers of freezes and thaws restore every count, and why
    the same is not true of suspending and continuing a single thread. */
module FreezeNesting {
  import opened DebugEvents
  import opened LeastElement
  import opened ThreadMachine
  import opened ThreadOps

  ghost predicate KillsSucceed(env: Env) {
    forall t :: t in env.kills ==> env.kills[t] != KillFailed
  }

  // The thread has reported a stop that was not there when it was signalled.
  predicate Reported(th: Thread) {
    th.gotPending || (th.state == Stopped && !th.waitingSigstop)
  }

  // ---------------------------------------------------------------- one freeze, thread by thread

  lemma KillOneAt(s: Signalling, u: Tid, kills: map<Tid, KillResult>, t: Tid)
    requires u in s.m.threads && t in s.m.threads
    ensures var r := KillOne(s, u, kills);
            var th := s.m.threads[t];
            && t in r.m.threads
            && r.m.threads[t] == (if t == u then Signalled(th, KillOf(kills, t)) else th)
            && (t in r.queue <==> t in s.queue || (t == u && th.IsRunning() && KillOf(kills, t) == Delivered))
            && (t in r.dead <==> t in s.dead || (t == u && th.IsRunning() && KillOf(kills, t) == NoSuchThread))
  {
  }

  lemma KillAllAt(s: Signalling, todo: set<Tid>, kills: map<Tid, KillResult>, t: Tid)
    requires todo <= s.m.threads.Keys && t in s.m.threads
    ensures var r := KillAll(s, todo, kills);
            var th := s.m.threads[t];
            && r.m.threads[t] == (if t in todo then Signalled(th, KillOf(kills, t)) else th)
            && (t in r.queue <==> t in s.queue || (t in todo && th.IsRunning() && KillOf(kills, t) == Delivered))
            && (t in r.dead <==> t in s.dead || (t in todo && th.IsRunning() && KillOf(kills, t) == NoSuchThread))
    decreases |todo|
  {
    if todo != {} {
      var u := Least(todo);
      KillOneAt(s, u, kills, t);
      KillAllAt(KillOne(s, u, kills), todo - {u}, kills, t);
    }
  }

  // What waiting for the stops does to one thread.
  ghost predicate Waited(th: Thread, th': Thread) {
    && th'.suspendCount == th.suspendCount
    && th'.userSuspend == th.userSuspend
    && (th'.IsRunning() ==> th.IsRunning())
    && (Reported(th) ==> Reported(th'))
  }

  lemma StorePendingAt(m: Machine, pid: Tid, status: WaitStatus, t: Tid)
    requires t in m.threads
    ensures Waited(m.threads[t], StorePending(m, pid, status).threads[t])
    ensures t == pid && !(status.StoppedBy? && status.sig == SIGSTOP)
            ==> Reported(StorePending(m, pid, status).threads[t])
  {
    hide StorePending;
    StorePendingThread(m, pid, status, t);
  }

  lemma WaitOneAt(w: Waiting, t: Tid)
    requires w.queue <= w.m.threads.Keys && w.waits != [] && t in w.m.threads
    ensures Waited(w.m.threads[t], WaitOne(w).m.threads[t])
    ensures t in w.queue && t !in WaitOne(w).queue ==> Reported(WaitOne(w).m.threads[t])
    ensures t !in w.queue ==> t !in WaitOne(w).queue
  {
    hide StorePending;
    hide Heard;
    var Report(pid, status) := w.waits[0];
    StorePendingAt(Heard(w.m, w.waits[0]), pid, status, t);
    if pid == t && t in w.queue && pid > 0 && status.StoppedBy? && status.sig == SIGSTOP {
      assert WaitOne(w).m.threads[t] == w.m.threads[t].(waitingSigstop := false, state := Stopped);
    }
  }

  lemma WaitAllAt(w: Waiting, t: Tid)
    requires w.queue <= w.m.threads.Keys && t in w.m.threads
    ensures Waited(w.m.threads[t], WaitAll(w).m.threads[t])
    ensures t in w.queue && t !in WaitAll(w).queue ==> Reported(WaitAll(w).m.threads[t])
    decreases |w.waits|
  {
    if w.queue != {} && w.waits != [] {
      WaitOneAt(w, t);
      WaitAllAt(WaitOne(w), t);
    }
  }

  lemma ReapAllRemoves(m: Machine, dead: seq<Tid>, t: Tid)
    ensures t in ReapAll(m, dead).threads <==> t in m.threads && t !in dead
    decreases |dead|
  {
    if dead != [] { ReapAllRemoves(DeadThread(m, dead[0], Dead), dead[1..], t); }
  }

  /** A completed freeze in which every SIGSTOP was delivered or found its thread
      gone: a surviving selected thread is not running, was counted exactly once
      more and, if it was running, has reported a stop; the others keep their
      counts.  The threads that disappear are the running ones found gone. */
  lemma FreezeStops(m: Machine, tid: Tid, exclude: bool, env: Env, t: Tid)
    requires KillsSucceed(env) && Freeze(m, tid, exclude, env).done
    ensures var f := Freeze(m, tid, exclude, env).m;
            && (t in f.threads <==>
                  t in m.threads && !(Selected(t, tid, exclude) && m.threads[t].IsRunning()
                      && KillOf(env.kills, t) == NoSuchThread))
            && (t in f.threads ==> f.threads[t].userSuspend == m.threads[t].userSuspend)
            && (t in f.threads && Selected(t, tid, exclude) ==>
                  && !f.threads[t].IsRunning()
                  && f.threads[t].suspendCount == m.threads[t].suspendCount + 1
                  && (m.threads[t].IsRunning() ==> Reported(f.threads[t])))
            && (t in f.threads && !Selected(t, tid, exclude) ==>
                  f.threads[t].suspendCount == m.threads[t].suspendCount)
  {
    var s0 := Signalling(m, {}, []);
    var todo := SelectedSet(m, tid, exclude);
    KillAllQueue(s0, todo, env.kills);
    var s := Signal(m, tid, exclude, env);
    var w := WaitAll(Waiting(s.m, s.queue, env.waits));
    ReapAllRemoves(w.m, s.dead, t);
    if t in m.threads {
      KillAllAt(s0, todo, env.kills, t);
      WaitAllAt(Waiting(s.m, s.queue, env.waits), t);
      if t !in s.dead { ReapAllOthers(w.m, s.dead, t); }
    }
  }

  // ---------------------------------------------------------------- one thaw, thread by thread

  lemma WakeAt(s: Thawed, u: Tid, conts: map<Tid, ContResult>, t: Tid)
    requires u in s.m.threads && t in s.m.threads
    ensures var r := Wake(s, u, conts).m;
            && (t != u ==> r.threads[t] == s.m.threads[t])
            && r.threads[t].suspendCount == s.m.threads[t].suspendCount
            && r.threads[t].userSuspend == s.m.threads[t].userSuspend
  {
    hide Wake;
    hide ContOf;
  }

  lemma ThawOneAt(s: Thawed, u: Tid, conts: map<Tid, ContResult>, t: Tid)
    requires u in s.m.threads && t in s.m.threads
    ensures var r := ThawOne(s, u, conts).m;
            var th := s.m.threads[t];
            && (t != u ==> r.threads[t] == th)
            && (t == u && !th.IsRunning() ==> r.threads[t].suspendCount == Relieved(th).suspendCount)
            && r.threads[t].userSuspend == th.userSuspend
            && (t == u && !th.IsRunning() && th.suspendCount > 1 ==>
                r.threads[t] == Relieved(th) && r.resumed == s.m.resumed)
  {
    var th := Relieved(s.m.threads[u]);
    WakeAt(s.(m := SetThread(s.m, u, th)), u, conts, t);
  }

  // All the threads a thaw looks at are stopped at least n levels deep.
  ghost predicate FrozenDeep(m: Machine, todo: set<Tid>, n: nat) {
    forall t :: t in todo ==> t in m.threads && !m.threads[t].IsRunning() && m.threads[t].suspendCount >= n
  }

  lemma ThawAllAt(s: Thawed, todo: set<Tid>, conts: map<Tid, ContResult>, t: Tid)
    requires todo <= s.m.threads.Keys && t in s.m.threads && FrozenDeep(s.m, todo, 1)
    ensures var r := ThawAll(s, todo, conts).m;
            var th := s.m.threads[t];
            && r.threads[t].suspendCount == (if t in todo then th.suspendCount - 1 else th.suspendCount)
            && r.threads[t].userSuspend == th.userSuspend
            && (t !in todo ==> r.threads[t] == th)
            && (FrozenDeep(s.m, todo, 2) ==> r.resumed == s.m.resumed && (t in todo ==> r.threads[t] == Relieved(th)))
    decreases |todo|
  {
    hide ThawOne;
    if todo != {} {
      var u := Least(todo);
      var s1 := ThawOne(s, u, conts);
      forall v | v in s.m.threads ensures v != u ==> s1.m.threads[v] == s.m.threads[v] {
        ThawOneAt(s, u, conts, v);
      }
      ThawOneAt(s, u, conts, t);
      ThawOneAt(s, u, conts, u);
      ThawAllAt(s1, todo - {u}, conts, t);
    }
  }

  // Is t one of the threads that thawing todo resumes?
  predicate Resumable(m: Machine, t: Tid, conts: map<Tid, ContResult>)
    requires t in m.threads
  {
    var th := m.threads[t];
    && th.state == Stopped && th.suspendCount <= 1 && th.userSuspend == 0 && !th.gotPending
    && m.mayRun && !m.exited && ContOf(conts, t) == Resumed
  }

  // The resumptions since the log was before.
  predicate NewlyResumed(before: seq<Resumption>, after: seq<Resumption>, r: Resumption) {
    |before| <= |after| && r in after[|before|..]
  }

  // How t is resumed: with the signal it holds, by a single step if it is to step.
  function ResumptionOf(m: Machine, t: Tid): Resumption
    requires t in m.threads
  {
    Resumption(t, m.threads[t].childSignum, m.threads[t].singleStep)
  }

  // The log and the flags after one thread.
  lemma WakeLog(s: Thawed, t: Tid, conts: map<Tid, ContResult>)
    requires t in s.m.threads
    ensures var r := Wake(s, t, conts).m;
            && r.resumed == (if s.m.threads[t].state != Dying
                && ContOf(conts, t) == Resumed then s.m.resumed + [ResumptionOf(s.m, t)] else s.m.resumed)
            && r.exited == s.m.exited && r.inEvent == s.m.inEvent && r.process == s.m.process
            && r.mayRun == (s.m.mayRun && !(s.m.threads[t].state != Dying && ContOf(conts, t) == Zombie))
            && r.events == (if s.m.threads[t].state != Dying && ContOf(conts, t) == Zombie
                then s.m.events + [ThreadEvent(s.m, THREAD_EXIT, t)] else s.m.events)
  {
    hide Woken;
    hide SetThread;
    hide ContOf;
    hide Released;
    hide ThreadEvent;
    SetThreadKeeps(s.m, t, Woken(s.m.threads[t], ContOf(conts, t)));
    SameExit(s.m, SetThread(s.m, t, Woken(s.m.threads[t], ContOf(conts, t))), t);
  }

  lemma SameExit(m: Machine, r: Machine, t: Tid)
    requires r.process == m.process
    ensures ThreadEvent(r, THREAD_EXIT, t) == ThreadEvent(m, THREAD_EXIT, t)
    ensures ThreadEvent(m, THREAD_EXIT, t).eid != NO_EVENT
  {
  }

  lemma SetThreadKeeps(m: Machine, t: Tid, th: Thread)
    ensures var r := SetThread(m, t, th); r == m.(threads := r.threads)
  {
  }

  // Does the thaw find out that u is a zombie?
  predicate Dies(m: Machine, u: Tid, conts: map<Tid, ContResult>)
    requires u in m.threads
  {
    var th := m.threads[u];
    && !th.IsRunning() && th.state == Stopped && th.suspendCount <= 1 && th.userSuspend == 0 && !th.gotPending
    && m.mayRun && !m.exited && ContOf(conts, u) == Zombie
  }

  lemma ThawLog(s: Thawed, u: Tid, conts: map<Tid, ContResult>)
    requires u in s.m.threads
    ensures var r := ThawOne(s, u, conts).m;
            && r.resumed == s.m.resumed + (if Resumable(s.m, u, conts) then [ResumptionOf(s.m, u)] else [])
            && r.exited == s.m.exited && r.inEvent == s.m.inEvent && r.process == s.m.process
            && r.mayRun == (s.m.mayRun && !Dies(s.m, u, conts))
            && r.events == (if Dies(s.m, u, conts) then s.m.events + [ThreadEvent(s.m, THREAD_EXIT, u)] else s.m.events)
  {
    hide Wake;
    hide ContOf;
    var th := Relieved(s.m.threads[u]);
    assert s.m.resumed + [] == s.m.resumed;
    WakeLog(s.(m := SetThread(s.m, u, th)), u, conts);
  }

  lemma ThawOneResumes(s: Thawed, u: Tid, conts: map<Tid, ContResult>, r: Resumption)
    requires u in s.m.threads
    ensures var log := ThawOne(s, u, conts).m.resumed;
            && s.m.resumed <= log
            && (NewlyResumed(s.m.resumed, log, r) <==> r == ResumptionOf(s.m, u) && Resumable(s.m, u, conts))
  {
    hide Resumable;
    hide ThawOne;
    hide Dies;
    ThawLog(s, u, conts);
    var before := s.m.resumed;
    assert (before + [ResumptionOf(s.m, u)])[|before|..] == [ResumptionOf(s.m, u)] && (before + [])[|before|..] == [];
  }

  // The other threads after one: as they were, until a zombie holds the application.
  lemma ThawOneOthers(s: Thawed, u: Tid, conts: map<Tid, ContResult>, v: Tid)
    requires u in s.m.threads && v in s.m.threads && v != u
    ensures var r := ThawOne(s, u, conts).m;
            && (Resumable(r, v, conts) <==> Resumable(s.m, v, conts) && !Dies(s.m, u, conts))
            && (Dies(r, v, conts) <==> Dies(s.m, v, conts) && !Dies(s.m, u, conts))
            && ResumptionOf(r, v) == ResumptionOf(s.m, v)
  {
    hide ThawOne;
    ThawLog(s, u, conts);
    ThawOneAt(s, u, conts, v);
  }

  // The resumption of a thread of todo that thawing todo makes, if no zombie comes first.
  ghost predicate Resumes(m: Machine, todo: set<Tid>, conts: map<Tid, ContResult>, r: Resumption)
    requires todo <= m.threads.Keys
  {
    && r.tid in todo && r == ResumptionOf(m, r.tid) && Resumable(m, r.tid, conts)
    && forall u :: u in todo && u < r.tid ==> !Dies(m, u, conts)
  }

  lemma {:induction false} ThawAllResumes(s: Thawed, todo: set<Tid>, conts: map<Tid, ContResult>, r: Resumption)
    requires todo <= s.m.threads.Keys
    ensures var log := ThawAll(s, todo, conts).m.resumed;
            s.m.resumed <= log && (NewlyResumed(s.m.resumed, log, r) <==> Resumes(s.m, todo, conts, r))
    decreases |todo|
  {
    hide ThawOne;
    hide Resumable;
    hide Dies;
    if todo != {} {
      var u := Least(todo);
      var s1 := ThawOne(s, u, conts);
      ThawOneResumes(s, u, conts, r);
      ThawAllResumes(s1, todo - {u}, conts, r);
      forall v | v in todo - {u}
        ensures Resumable(s1.m, v, conts) <==> Resumable(s.m, v, conts) && !Dies(s.m, u, conts)
        ensures Dies(s1.m, v, conts) <==> Dies(s.m, v, conts) && !Dies(s.m, u, conts)
        ensures ResumptionOf(s1.m, v) == ResumptionOf(s.m, v)
      {
        ThawOneOthers(s, u, conts, v);
      }
      LoggedOn(s.m.resumed, s1.m.resumed, ThawAll(s, todo, conts).m.resumed, r);
      LeastBefore(s.m, s1.m, todo, u, conts, r.tid);
    }
  }

  lemma LoggedOn(a: seq<Resumption>, b: seq<Resumption>, c: seq<Resumption>, r: Resumption)
    requires a <= b <= c
    ensures NewlyResumed(a, c, r) <==> NewlyResumed(a, b, r) || NewlyResumed(b, c, r)
  {
    assert c[|a|..] == b[|a|..] + c[|b|..];
  }

  // Whether a zombie comes before t, told from the threads after the first one.
  lemma LeastBefore(m: Machine, r: Machine, todo: set<Tid>, u: Tid, conts: map<Tid, ContResult>, t: Tid)
    requires todo <= m.threads.Keys && r.threads.Keys == m.threads.Keys && todo != {} && u == Least(todo)
    requires forall v :: v in todo - {u} ==> (Dies(r, v, conts) <==> Dies(m, v, conts) && !Dies(m, u, conts))
    ensures t in todo && t != u ==>
              ((!Dies(m, u, conts) && forall v :: v in todo - {u} && v < t ==> !Dies(r, v, conts))
               <==> forall v :: v in todo && v < t ==> !Dies(m, v, conts))
    ensures forall v :: v in todo && v < u ==> !Dies(m, v, conts)
  {
    hide Dies;
    if t in todo && t != u {
      assert u < t;
      if !Dies(m, u, conts) && forall v :: v in todo - {u} && v < t ==> !Dies(r, v, conts) {
        forall v | v in todo && v < t ensures !Dies(m, v, conts) {
          if v != u { assert v in todo - {u}; }
        }
      }
    }
  }

  /** Exactly which threads a thaw resumes, and how: those selected that are stopped with at
      most the one suspension it takes off, none by the user and no pending status, while
      the application may run and has not exited, unless a zombie comes before them: its
      death is reported, which holds the application.  The thread gets the signal it holds
      and runs on by a single step exactly if it is to step. */
  lemma ThawResumesIff(m: Machine, tid: Tid, exclude: bool, conts: map<Tid, ContResult>, r: Resumption)
    ensures NewlyResumed(m.resumed, Thaw(m, tid, exclude, conts).m.resumed, r) <==>
            && r.tid in m.threads && Selected(r.tid, tid, exclude) && Resumable(m, r.tid, conts)
            && r.signal == m.threads[r.tid].childSignum && r.step == m.threads[r.tid].singleStep
            && forall u :: u in m.threads && Selected(u, tid, exclude) && u < r.tid ==> !Dies(m, u, conts)
  {
    var todo := SelectedSet(m, tid, exclude);
    ThawAllResumes(Thawed(m, true), todo, conts, r);
    assert forall u :: u in todo <==> u in m.threads && Selected(u, tid, exclude);
  }

  // ---------------------------------------------------------------- nesting

  ghost function FreezeTimes(m: Machine, envs: seq<Env>): Machine
    decreases |envs|
  {
    if envs == [] then m else FreezeTimes(Freeze(m, NO_THREAD, true, envs[0]).m, envs[1..])
  }

  ghost predicate FreezesComplete(m: Machine, envs: seq<Env>)
    decreases |envs|
  {
    envs == [] ||
    (var f := Freeze(m, NO_THREAD, true, envs[0]);
     f.done && KillsSucceed(envs[0]) && FreezesComplete(f.m, envs[1..]))
  }

  ghost function ThawTimes(m: Machine, conts: seq<map<Tid, ContResult>>): Machine
    decreases |conts|
  {
    if conts == [] then m else ThawTimes(Thaw(m, NO_THREAD, true, conts[0]).m, conts[1..])
  }

  lemma FreezeTimesAt(m: Machine, envs: seq<Env>, t: Tid)
    requires FreezesComplete(m, envs) && t in FreezeTimes(m, envs).threads
    ensures t in m.threads
    ensures var th := FreezeTimes(m, envs).threads[t];
            && th.suspendCount == m.threads[t].suspendCount + (if t == NO_THREAD then 0 else |envs|)
            && (t != NO_THREAD && envs != [] ==> !th.IsRunning())
    decreases |envs|
  {
    if envs != [] {
      FreezeTimesAt(Freeze(m, NO_THREAD, true, envs[0]).m, envs[1..], t);
      FreezeStops(m, NO_THREAD, true, envs[0], t);
      if envs[1..] == [] { assert FreezeTimes(m, envs) == Freeze(m, NO_THREAD, true, envs[0]).m; }
    }
  }

  lemma ThawTimesAt(m: Machine, conts: seq<map<Tid, ContResult>>, t: Tid)
    requires t in m.threads && FrozenDeep(m, SelectedSet(m, NO_THREAD, true), |conts|)
    ensures var r := ThawTimes(m, conts);
            && r.threads.Keys == m.threads.Keys
            && r.threads[t].suspendCount == m.threads[t].suspendCount - (if t == NO_THREAD then 0 else |conts|)
            && (FrozenDeep(m, SelectedSet(m, NO_THREAD, true), |conts| + 1) ==> r.resumed == m.resumed)
    decreases |conts|
  {
    if conts != [] {
      var todo := SelectedSet(m, NO_THREAD, true);
      var m1 := Thaw(m, NO_THREAD, true, conts[0]).m;
      assert SelectedSet(m1, NO_THREAD, true) == todo;
      forall u | u in m.threads
        ensures m1.threads[u].suspendCount
                  == (if u in todo then m.threads[u].suspendCount - 1 else m.threads[u].suspendCount)
        ensures FrozenDeep(m, todo, 2) ==> m1.resumed == m.resumed && (u in todo ==>
                  m1.threads[u] == Relieved(m.threads[u]))
      {
        ThawAllAt(Thawed(m, true), todo, conts[0], u);
      }
      if |conts| > 1 {
        assert FrozenDeep(m, todo, 2);
        ThawTimesAt(m1, conts[1..], t);
        if FrozenDeep(m, todo, |conts| + 1) { assert FrozenDeep(m1, todo, |conts[1..]| + 1); }
      } else {
        assert ThawTimes(m, conts) == m1;
        ThawAllAt(Thawed(m, true), todo, conts[0], t);
      }
    }
  }

  lemma FrozenDeepAfter(m: Machine, envs: seq<Env>, n: nat)
    requires FreezesComplete(m, envs) && envs != [] && n <= |envs|
    ensures var f := FreezeTimes(m, envs); FrozenDeep(f, SelectedSet(f, NO_THREAD, true), n)
  {
    var f := FreezeTimes(m, envs);
    forall t | t in SelectedSet(f, NO_THREAD, true)
      ensures !f.threads[t].IsRunning() && f.threads[t].suspendCount >= n
    {
      FreezeTimesAt(m, envs, t);
    }
  }

  /** k completed freezes followed by k thaws restore the count of every thread
      that survived, and only the last thaw can resume anything. */
  lemma FreezeThawNesting(m: Machine, envs: seq<Env>, conts: seq<map<Tid, ContResult>>)
    requires FreezesComplete(m, envs) && |envs| == |conts| > 0
    ensures var f := FreezeTimes(m, envs);
            var r := ThawTimes(f, conts);
            && r.threads.Keys == f.threads.Keys <= m.threads.Keys
            && (forall t :: t in r.threads ==> r.threads[t].suspendCount == m.threads[t].suspendCount)
            && (forall j :: 0 <= j < |conts| ==> ThawTimes(f, conts[..j]).resumed == f.resumed)
  {
    hide Freeze;
    hide Thaw;
    hide ThawAll;
    var f := FreezeTimes(m, envs);
    var r := ThawTimes(f, conts);
    FrozenDeepAfter(m, envs, |conts|);
    forall t | t in f.threads
      ensures t in m.threads && r.threads.Keys == f.threads.Keys
                && r.threads[t].suspendCount == m.threads[t].suspendCount
    {
      FreezeTimesAt(m, envs, t);
      ThawTimesAt(f, conts, t);
    }
    if f.threads.Keys == {} { ThawNobody(f, conts); }
    forall j | 0 <= j < |conts| ensures ThawTimes(f, conts[..j]).resumed == f.resumed {
      FrozenDeepAfter(m, envs, j);
      FrozenDeepAfter(m, envs, j + 1);
      if f.threads.Keys != {} {
        ThawTimesAt(f, conts[..j], Least(f.threads.Keys));
      } else {
        ThawNobody(f, conts[..j]);
      }
    }
  }

  lemma ThawNobody(m: Machine, conts: seq<map<Tid, ContResult>>)
    requires m.threads.Keys == {}
    ensures ThawTimes(m, conts) == m
    decreases |conts|
  {
    if conts != [] {
      assert SelectedSet(m, NO_THREAD, true) == {};
      ThawNobody(m, conts[1..]);
    }
  }

  // ---------------------------------------------------------------- single threads

  ghost function SuspendTimes(m: Machine, t: Tid, envs: seq<Env>): Machine
    decreases |envs|
  {
    if envs == [] then m else SuspendTimes(SuspendThread(m, t, envs[0]), t, envs[1..])
  }

  ghost predicate SuspendsComplete(m: Machine, t: Tid, envs: seq<Env>)
    decreases |envs|
  {
    envs == [] ||
    (t in m.threads && Freeze(m, t, false, envs[0]).done && KillsSucceed(envs[0]) &&
     t in Freeze(m, t, false, envs[0]).m.threads && SuspendsComplete(SuspendThread(m, t, envs[0]), t, envs[1..]))
  }

  ghost function ContinueTimes(m: Machine, t: Tid, conts: seq<map<Tid, ContResult>>): Machine
    decreases |conts|
  {
    if conts == [] then m else ContinueTimes(ContinueThread(m, t, conts[0]), t, conts[1..])
  }

  lemma SuspendTimesAt(m: Machine, t: Tid, envs: seq<Env>)
    requires t in m.threads && SuspendsComplete(m, t, envs)
    ensures var r := SuspendTimes(m, t, envs);
            && t in r.threads
            && r.threads[t].suspendCount == m.threads[t].suspendCount + |envs|
            && r.threads[t].userSuspend == m.threads[t].userSuspend + |envs|
            && (envs != [] || !m.threads[t].IsRunning() ==> !r.threads[t].IsRunning())
    decreases |envs|
  {
    if envs != [] {
      FreezeStops(m, t, false, envs[0], t);
      var m1 := SuspendThread(m, t, envs[0]);
      var th := Freeze(m, t, false, envs[0]).m.threads[t];
      assert m1.threads[t] == th.(userSuspend := th.userSuspend + 1);
      SuspendTimesAt(m1, t, envs[1..]);
    }
  }

  lemma ThawSingleAt(m: Machine, t: Tid, conts: map<Tid, ContResult>)
    requires t in m.threads && !m.threads[t].IsRunning() && m.threads[t].suspendCount > 0
    ensures var r := Thaw(m, t, false, conts).m;
            t in r.threads && r.threads[t].suspendCount == m.threads[t].suspendCount - 1
  {
    hide ThawAll;
    assert SelectedSet(m, t, false) == {t};
    ThawAllAt(Thawed(m, true), {t}, conts, t);
  }

  lemma ContinueThreadAt(m: Machine, t: Tid, conts: map<Tid, ContResult>)
    requires t in m.threads && !m.threads[t].IsRunning() && m.threads[t].suspendCount > 0
    ensures var r := ContinueThread(m, t, conts);
            var th := m.threads[t];
            && t in r.threads
            && (th.userSuspend > 1 ==> r.threads[t] == th.(userSuspend := th.userSuspend - 1))
            && (th.userSuspend <= 1 ==> r.threads[t].suspendCount == th.suspendCount - 1)
  {
    hide Thaw;
    var th := m.threads[t];
    var r := ContinueThread(m, t, conts);
    if th.userSuspend > 1 {
      assert r.threads == m.threads[t := th.(userSuspend := th.userSuspend - 1)];
    } else {
      var m0 := SetThread(m, t, th.(userSuspend := 0));
      assert m0.threads[t] == th.(userSuspend := 0) && !m0.threads[t].IsRunning();
      ThawSingleAt(m0, t, conts);
      assert r == Thaw(m0, t, false, conts).m;
    }
  }

  lemma ContinueTimesAt(m: Machine, t: Tid, conts: seq<map<Tid, ContResult>>)
    requires t in m.threads && !m.threads[t].IsRunning()
    requires m.threads[t].userSuspend >= |conts| && m.threads[t].suspendCount > 0
    ensures var r := ContinueTimes(m, t, conts);
            && t in r.threads
            && r.threads[t].suspendCount
               == m.threads[t].suspendCount - (if conts != [] && m.threads[t].userSuspend == |conts| then 1 else 0)
    decreases |conts|
  {
    if conts != [] {
      var th := m.threads[t];
      var m1 := ContinueThread(m, t, conts[0]);
      ContinueThreadAt(m, t, conts[0]);
      if th.userSuspend > 1 {
        ContinueTimesAt(m1, t, conts[1..]);
      } else {
        assert ContinueTimes(m, t, conts) == m1;
      }
    }
  }

  /** dbg_thread_suspend and dbg_thread_continue do not balance: n suspensions
      undone by n continues leave the thread's suspend count as it was exactly
      when n is one and the thread was not suspended by the user before. */
  lemma SuspendContinueBalance(m: Machine, t: Tid, envs: seq<Env>, conts: seq<map<Tid, ContResult>>)
    requires t in m.threads && SuspendsComplete(m, t, envs) && |envs| == |conts| > 0
    ensures var r := ContinueTimes(SuspendTimes(m, t, envs), t, conts);
            && t in r.threads
            && r.threads[t].suspendCount
               == m.threads[t].suspendCount + |envs| - (if m.threads[t].userSuspend == 0 then 1 else 0)
            && (r.threads[t].suspendCount == m.threads[t].suspendCount <==>
                |envs| == 1 && m.threads[t].userSuspend == 0)
  {
    SuspendTimesAt(m, t, envs);
    ContinueTimesAt(SuspendTimes(m, t, envs), t, conts);
  }
}
