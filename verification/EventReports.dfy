/** What get_debug_event makes of the report of a thread: which event the client gets, with
    which fields, when the application goes on silently instead, and which signal the
    thread holds afterwards. */
module EventReports {
  import opened DebugEvents
  import opened LeastElement
  import opened ThreadMachine
  import opened ThreadOps
  import opened FreezeNesting
  import opened SignalFlow

  // A report that a pass of get_debug_event deals with: m is the state with all threads
  // frozen, waits are the reports still to come.
  datatype Catch = Catch(m: Machine, r: Report, waits: seq<Report>)

  ghost predicate Catches(m0: Machine, rd: Round, k: Catch) {
    var c := CheckNewEvents(m0, rd.env.waits, rd.noTimeout);
    && c.found == Some(k.r) && k.r.pid in c.m.threads && !c.prepared
    && Halt(NotStopped(c.m, k.r), k.r.pid, rd.env.(waits := c.waits)) == Frozen(k.m, k.waits, true)
  }

  lemma CatchThere(m0: Machine, rd: Round, k: Catch)
    requires Catches(m0, rd, k)
    ensures k.r.pid in k.m.threads && k.m.threads[k.r.pid].state == Stopped && !k.m.mayRun
  {
    hide CheckNewEvents;
    hide Freeze;
  }

  // ---------------------------------------------------------------- what a report is

  predicate StopBy(k: Catch, sig: nat) {
    k.r.status.StoppedBy? && k.r.status.sig == sig
  }

  // The address reported with the event; none once the process has exited.
  function Place(k: Catch, rd: Round): word {
    if k.m.exited then BADADDR else rd.ip
  }

  // A breakpoint instruction: SIGTRAP, and on ARM also SIGILL, at an address that exists.
  predicate Trapped(k: Catch, rd: Round) {
    if k.m.arm then (StopBy(k, 4) || StopBy(k, 5)) && Place(k, rd) != BADADDR
    else StopBy(k, 5) && Place(k, rd) != 0
  }

  // Where it is: an x86 processor stops behind the instruction.
  function TrapAddress(k: Catch, rd: Round): word {
    if k.m.arm then Place(k, rd) else (Place(k, rd) + TWO_32 - 1) % TWO_32
  }

  // The SIGSTOP that the thread was waited for.
  predicate Late(k: Catch)
    requires k.r.pid in k.m.threads
  {
    StopBy(k, 19) && k.m.threads[k.r.pid].waitingSigstop
  }

  // The breakpoints the debugger sets for itself, to hear of libraries and threads.
  predicate OwnBpt(k: Catch, rd: Round) {
    Trapped(k, rd) && !rd.cause.UserBpt?
  }

  function Returned(rd: Round): bool {
    match rd.cause
    case LibraryBpt(returned, _) => returned
    case ThreadBpt(returned, _) => returned
    case UserBpt(_, _) => true
  }

  predicate UserBptHit(k: Catch, rd: Round) {
    Trapped(k, rd) && rd.cause.UserBpt? && !rd.cause.kind.Unknown?
  }

  predicate StepDone(k: Catch, rd: Round)
    requires k.r.pid in k.m.threads
  {
    Trapped(k, rd) && rd.cause.UserBpt? && rd.cause.kind.Unknown? && k.m.threads[k.r.pid].singleStep
  }

  // A signal of the application itself.
  predicate Foreign(k: Catch, rd: Round)
    requires k.r.pid in k.m.threads
  {
    k.r.status.StoppedBy? && !Late(k) && !OwnBpt(k, rd) && !UserBptHit(k, rd) && !StepDone(k, rd)
  }

  // The table of exceptions says not to stop for the signal, or to keep it from the application.
  predicate Ignored(k: Catch) {
    k.r.status.StoppedBy? && k.r.status.sig in k.m.exceptions && !k.m.exceptions[k.r.status.sig].breakOn
  }

  predicate Masked(k: Catch) {
    k.r.status.StoppedBy? && k.r.status.sig in k.m.exceptions && k.m.exceptions[k.r.status.sig].handle
  }

  // The signal of the application is masked only if it is not stopped for, or is a trap.
  function ForeignSignal(k: Catch, rd: Round): nat
    requires k.r.status.StoppedBy?
  {
    if Masked(k) && (Ignored(k) || Trapped(k, rd)) then 0 else k.r.status.sig
  }

  // The state once library and thread messages have been handled, and whether they brought
  // events.
  function After(k: Catch, rd: Round): Machine {
    if Trapped(k, rd) then SideEffects(Stepped(k.m, k.waits), rd.cause.steps).m else k.m
  }

  predicate News(k: Catch, rd: Round) {
    |After(k, rd).events| != |k.m.events|
  }

  // The last thread, or the main one, has ended.
  predicate LastExit(k: Catch) {
    !k.r.status.StoppedBy? && (|k.m.threads| <= 1 || k.m.process == Some(k.r.pid))
  }

  // Nothing to tell the client.
  predicate Quietly(k: Catch, rd: Round)
    requires k.r.pid in k.m.threads
  {
    Late(k) || (OwnBpt(k, rd) && Returned(rd) && !News(k, rd)) || (Foreign(k, rd) && Ignored(k))
  }

  // The application may not go on without the client.
  predicate Wanted(k: Catch) {
    k.m.requestedToSuspend || k.m.inEvent
  }

  function EventOf(k: Catch, eid: word, ea: word, payload: Payload): Event {
    Event(eid, if k.m.process == None then -1 else k.m.process.value, k.r.pid, ea, false, payload)
  }

  function ExceptionOf(k: Catch, rd: Round): Event
    requires k.r.status.StoppedBy?
  {
    EventOf(k, EXCEPTION, Place(k, rd), Exc(ExceptionInfo(k.r.status.sig % TWO_32, true, BADADDR, [])))
  }

  // ---------------------------------------------------------------- what becomes of it

  // The event is ev; the thread holds signal and steps no more.
  predicate ReportedAs(x: Machine, t: Tid, signal: nat, ev: Event, g: Got) {
    && t in x.threads && g.ev == Some(ev)
    && g.m == x.(threads := x.threads[t := x.threads[t].(childSignum := signal, singleStep := false)], lastEvent := ev)
  }

  // No event: the application goes on, or is kept suspended for the client.
  ghost predicate PassedOver(x: Machine, ev: Event, conts: map<Tid, ContResult>, g: Got) {
    if x.requestedToSuspend || x.inEvent then g == Got(x, Some(ev.(eid := PROCESS_SUSPEND)))
    else g == Got(ResumeApp(x, conts).m, None)
  }

  function WithSignal(x: Machine, t: Tid, signal: nat): Machine
    requires t in x.threads
  {
    x.(threads := x.threads[t := x.threads[t].(childSignum := signal)])
  }

  // What a step keeps of a thread and of the flags.
  predicate Marked(m: Machine, r: Machine, t: Tid)
    requires t in m.threads
  {
    && t in r.threads && SameMarks(m.threads[t], r.threads[t])
    && r.requestedToSuspend == m.requestedToSuspend && r.inEvent == m.inEvent && r.exited == m.exited
  }

  lemma BornMarks(m: Machine, u: Tid, waits: seq<Report>, t: Tid)
    requires t in m.threads && u !in m.threads
    ensures Marked(m, AwaitStop(Enqueue(AddThread(m, u), ThreadEvent(m, THREAD_START, u), InFront), u, waits).m, t)
  {
    hide AwaitStop;
    var m1 := AddThread(m, u);
    assert m1.threads[t] == m.threads[t];
    AwaitMarks(Enqueue(m1, ThreadEvent(m, THREAD_START, u), InFront), u, waits, t);
  }

  lemma DyingMarks(m: Machine, u: Tid, t: Tid)
    requires t in m.threads
    ensures Marked(m, DeadThread(m, u, Dying), t)
  {
  }

  lemma SideEffectMarks(s: Stepped, step: SideStep, t: Tid)
    requires t in s.m.threads
    ensures Marked(s.m, SideEffect(s, step).m, t)
  {
    hide AwaitStop;
    hide AddThread;
    hide DeadThread;
    hide DelPendingEvent;
    match step
    case DropLoad(name) =>
    case Library(ev) =>
    case Birth(u) => if u !in s.m.threads { BornMarks(s.m, u, s.waits, t); }
    case Death(u) => DyingMarks(s.m, u, t);
  }

  lemma AwaitMarks(m: Machine, u: Tid, waits: seq<Report>, t: Tid)
    requires u in m.threads && t in m.threads
    ensures var r := AwaitStop(m, u, waits).m;
            t in r.threads && SameMarks(m.threads[t], r.threads[t]) && SameFlags(m, r)
  {
    hide StorePending;
    hide Heard;
    hide Stored;
    hide Awaiting;
    hide SameMarks;
    var r := NextReport(waits);
    AwaitingMarks(m, u, r, t);
    var h := Heard(Awaiting(m, u), r);
    StorePendingThread(h, r.pid, r.status, t);
    StoredMarks(m.threads[t], h.threads[t], r.status);
    StoreFlags(h, r.pid, r.status);
  }

  lemma AwaitingMarks(m: Machine, u: Tid, r: Report, t: Tid)
    requires u in m.threads && t in m.threads
    ensures SameMarks(m.threads[t], m.threads[t]) && SameMarks(m.threads[t], Awaiting(m, u).threads[t])
    ensures Heard(Awaiting(m, u), r).threads == Awaiting(m, u).threads
    ensures Heard(m, r).threads == m.threads && SameFlags(m, Heard(m, r))
    ensures SameFlags(m, Awaiting(m, u)) && SameFlags(m, Heard(Awaiting(m, u), r))
  {
  }

  lemma StoredMarks(th0: Thread, th: Thread, status: WaitStatus)
    requires SameMarks(th0, th)
    ensures SameMarks(th0, Stored(th, status))
  {
  }

  lemma {:induction false} SideEffectsMarks(s: Stepped, steps: seq<SideStep>, t: Tid)
    requires t in s.m.threads
    ensures Marked(s.m, SideEffects(s, steps).m, t)
    decreases |steps|
  {
    hide SideEffect;
    if steps != [] {
      SideEffectMarks(s, steps[0], t);
      SideEffectsMarks(SideEffect(s, steps[0]), steps[1..], t);
    }
  }

  lemma AfterMarks(k: Catch, rd: Round)
    requires k.r.pid in k.m.threads
    ensures var x := After(k, rd);
            && k.r.pid in x.threads && SameMarks(k.m.threads[k.r.pid], x.threads[k.r.pid])
            && x.requestedToSuspend == k.m.requestedToSuspend && x.inEvent == k.m.inEvent && x.exited == k.m.exited
  {
    SideEffectsMarks(Stepped(k.m, k.waits), rd.cause.steps, k.r.pid);
  }

  // ---------------------------------------------------------------- one class of reports at a time

  ghost function Prepared(k: Catch, rd: Round): Got
    requires k.r.pid in k.m.threads
  {
    PrepareEvent(k.m, k.r, false, rd, k.waits)
  }

  lemma PassPrepares(m0: Machine, rd: Round, k: Catch)
    requires Catches(m0, rd, k)
    ensures k.r.pid in k.m.threads && GetDebugEvent(m0, rd) == Prepared(k, rd)
  {
    hide CheckNewEvents;
    hide Freeze;
    hide PrepareEvent;
    CatchThere(m0, rd, k);
  }

  lemma TrapIff(k: Catch, rd: Round)
    requires k.r.status.StoppedBy?
    ensures var ea := BptAddress(k.m.arm, k.r.status.sig, Place(k, rd));
            (ea != BADADDR <==> Trapped(k, rd)) && (Trapped(k, rd) ==> ea == TrapAddress(k, rd))
  {
  }

  // The two ways through the stop branch: a trap, and any other signal.
  lemma StopPath(k: Catch, rd: Round)
    requires k.r.pid in k.m.threads && k.r.status.StoppedBy? && !Late(k)
    ensures var suspend, ev := !Ignored(k), ExceptionOf(k, rd);
            && k.r.pid in After(k, rd).threads
            && Prepared(k, rd)
               == if Trapped(k, rd) then
                    BptEvent(k.m, After(k, rd), k.r.pid, TrapAddress(k, rd), suspend, ForeignSignal(k, rd), ev, rd)
                  else Deliver(k.m, k.r.pid, ForeignSignal(k, rd), suspend, ev, rd.env.conts)
  {
    hide BptAddress;
    hide Trapped;
    hide TrapAddress;
    hide SideEffects;
    hide Deliver;
    hide BptEvent;
    AfterMarks(k, rd);
    TrapIff(k, rd);
  }

  lemma LatePath(k: Catch, rd: Round)
    requires k.r.pid in k.m.threads && Late(k)
    ensures var x := k.m.(threads := k.m.threads[k.r.pid := k.m.threads[k.r.pid].(waitingSigstop := false)]);
            PassedOver(x, ExceptionOf(k, rd), rd.env.conts, Prepared(k, rd))
  {
    hide ResumeApp;
  }

  lemma DeliverReports(x: Machine, t: Tid, code: nat, suspend: bool, ev: Event, conts: map<Tid, ContResult>)
    requires t in x.threads && (suspend || ev.eid != EXCEPTION)
    ensures ReportedAs(x, t, code, ev, Deliver(x, t, code, suspend, ev, conts))
  {
    hide Silently;
    var th := x.threads[t].(childSignum := code);
    assert x.threads[t := th][t := th.(singleStep := false)] == x.threads[t := th.(singleStep := false)];
  }

  lemma DeliverPasses(x: Machine, t: Tid, code: nat, ev: Event, conts: map<Tid, ContResult>)
    requires t in x.threads && ev.eid == EXCEPTION
    ensures PassedOver(WithSignal(x, t, code), ev, conts, Deliver(x, t, code, false, ev, conts))
  {
    hide ResumeApp;
  }

  lemma SilentlyPasses(x: Machine, ev: Event, conts: map<Tid, ContResult>)
    ensures PassedOver(x, ev, conts, Silently(x, ev, conts))
  {
    hide ResumeApp;
  }

  lemma OwnPath(k: Catch, rd: Round)
    requires k.r.pid in k.m.threads && OwnBpt(k, rd)
    ensures var g, ev := Prepared(k, rd), ExceptionOf(k, rd);
            if !Returned(rd) then g == Got(if rd.cause.LibraryBpt? then k.m else After(k, rd), Some(ev))
            else if News(k, rd) then ReportedAs(After(k, rd), k.r.pid, 0, ev.(eid := NO_EVENT), g)
            else PassedOver(After(k, rd), ev, rd.env.conts, g)
  {
    hide Prepared;
    hide PassedOver;
    hide ReportedAs;
    hide Silently;
    hide Deliver;
    hide After;
    hide Trapped;
    TrapSignal(k, rd);
    StopPath(k, rd);
    var x, ev := After(k, rd), ExceptionOf(k, rd);
    SilentlyPasses(x, ev, rd.env.conts);
    DeliverReports(x, k.r.pid, 0, !Ignored(k), ev.(eid := NO_EVENT), rd.env.conts);
  }

  lemma TrapSignal(k: Catch, rd: Round)
    requires Trapped(k, rd)
    ensures k.r.status.StoppedBy? && (k.r.status.sig == 4 || k.r.status.sig == 5)
  {
  }

  lemma HitPath(k: Catch, rd: Round)
    requires k.r.pid in k.m.threads && UserBptHit(k, rd)
    ensures var ev := match rd.cause.kind
              case Hardware(hea) => EventOf(k, BREAKPOINT, Place(k, rd), Bpt(hea, BADADDR))
              case _ => EventOf(k, BREAKPOINT, TrapAddress(k, rd), Bpt(BADADDR, BADADDR));
            ReportedAs(After(k, rd), k.r.pid, 0, ev, Prepared(k, rd))
  {
    hide Prepared;
    hide ReportedAs;
    hide Deliver;
    hide After;
    hide Trapped;
    TrapSignal(k, rd);
    StopPath(k, rd);
    forall ev: Event | ev.eid == BREAKPOINT
      ensures ReportedAs(After(k, rd), k.r.pid, 0, ev, Deliver(After(k, rd), k.r.pid, 0, !Ignored(k), ev, rd.env.conts))
    {
      DeliverReports(After(k, rd), k.r.pid, 0, !Ignored(k), ev, rd.env.conts);
    }
  }

  lemma StepPath(k: Catch, rd: Round)
    requires k.r.pid in k.m.threads && StepDone(k, rd)
    ensures ReportedAs(After(k, rd), k.r.pid, 0, ExceptionOf(k, rd).(eid := STEP), Prepared(k, rd))
  {
    hide Prepared;
    hide ReportedAs;
    hide Deliver;
    hide After;
    hide Trapped;
    TrapSignal(k, rd);
    AfterMarks(k, rd);
    StopPath(k, rd);
    DeliverReports(After(k, rd), k.r.pid, 0, !Ignored(k), ExceptionOf(k, rd).(eid := STEP), rd.env.conts);
  }

  lemma ForeignPath(k: Catch, rd: Round)
    requires k.r.pid in k.m.threads && Foreign(k, rd)
    ensures var ev, x, sig := ExceptionOf(k, rd), After(k, rd), ForeignSignal(k, rd);
            && k.r.pid in x.threads
            && if Ignored(k) then PassedOver(WithSignal(x, k.r.pid, sig), ev, rd.env.conts, Prepared(k, rd))
               else ReportedAs(x, k.r.pid, sig, ev, Prepared(k, rd))
  {
    hide Prepared;
    hide ReportedAs;
    hide PassedOver;
    hide Deliver;
    hide SideEffects;
    hide Trapped;
    hide ForeignSignal;
    hide Ignored;
    AfterMarks(k, rd);
    StopPath(k, rd);
    var ev, x, sig := ExceptionOf(k, rd), After(k, rd), ForeignSignal(k, rd);
    if Ignored(k) {
      DeliverPasses(x, k.r.pid, sig, ev, rd.env.conts);
    } else {
      DeliverReports(x, k.r.pid, sig, true, ev, rd.env.conts);
    }
  }

  // An exit: of the process, or of one thread, which is announced and forgotten.
  lemma ExitPath(k: Catch, rd: Round)
    requires k.r.pid in k.m.threads && !k.r.status.StoppedBy?
    ensures var t, g := k.r.pid, Prepared(k, rd);
            var st := k.r.status;
            var code := if st.Signaled? then st.termsig else if st.Exited? then st.code else 0;
            if LastExit(k) then
              var ev := EventOf(k, PROCESS_EXIT, Place(k, rd), ExitCode(code));
              g == Got(k.m.(exited := true, lastEvent := ev,
                            threads := k.m.threads[t := k.m.threads[t].(singleStep := false)]),
                       Some(ev))
            else
              var ev := EventOf(k, NO_EVENT, Place(k, rd), ExitCode(code));
              && g.ev == Some(ev) && g.m.threads == k.m.threads - {t} && g.m.lastEvent == ev && g.m.exited == k.m.exited
              && g.m.events == k.m.events + [Event(THREAD_EXIT, ev.pid, t, BADADDR, true, ExitCode(0))]
  {
  }

  // ---------------------------------------------------------------- which event

  /** Exactly which event a pass yields, for every frozen state and every report: BREAKPOINT
      at a breakpoint of the user or of a debug register, STEP when a stepping thread traps
      at neither, EXCEPTION for a signal of the application that is stopped for (or when one
      of the debugger's own breakpoints cannot be returned from), PROCESS_EXIT when the last
      or the main thread ends, PROCESS_SUSPEND or nothing when there is nothing to tell,
      and no event of its own when other events have been queued. */
  lemma EventIff(m0: Machine, rd: Round, k: Catch)
    requires Catches(m0, rd, k)
    ensures k.r.pid in k.m.threads
    ensures var ev := GetDebugEvent(m0, rd).ev;
            && (ev == None <==> Quietly(k, rd) && !Wanted(k))
            && (ev.Some? && ev.value.eid == PROCESS_SUSPEND <==> Quietly(k, rd) && Wanted(k))
            && (ev.Some? && ev.value.eid == BREAKPOINT <==> UserBptHit(k, rd))
            && (ev.Some? && ev.value.eid == STEP <==> StepDone(k, rd))
            && (ev.Some? && ev.value.eid == EXCEPTION <==>
                  (OwnBpt(k, rd) && !Returned(rd)) || (Foreign(k, rd) && !Ignored(k)))
            && (ev.Some? && ev.value.eid == PROCESS_EXIT <==> LastExit(k))
            && (ev.Some? && ev.value.eid == NO_EVENT <==>
                  (OwnBpt(k, rd) && Returned(rd) && News(k, rd)) || (!k.r.status.StoppedBy? && !LastExit(k)))
  {
    hide GetDebugEvent;
    hide Catches;
    hide Prepared;
    hide ResumeApp;
    hide After;
    hide Trapped;
    hide Foreign;
    hide News;
    hide Ignored;
    hide LastExit;
    PassPrepares(m0, rd, k);
    AfterMarks(k, rd);
    ReportKinds(k, rd);
    if !k.r.status.StoppedBy? {
      ExitPath(k, rd);
    } else if Late(k) {
      LatePath(k, rd);
    } else if OwnBpt(k, rd) {
      OwnPath(k, rd);
    } else if UserBptHit(k, rd) {
      HitPath(k, rd);
    } else if StepDone(k, rd) {
      StepPath(k, rd);
    } else {
      ForeignPath(k, rd);
    }
  }

  // Every stop is of exactly one kind.
  lemma ReportKinds(k: Catch, rd: Round)
    requires k.r.pid in k.m.threads
    ensures Foreign(k, rd) <==>
            k.r.status.StoppedBy? && !Late(k) && !OwnBpt(k, rd) && !UserBptHit(k, rd) && !StepDone(k, rd)
    ensures Trapped(k, rd) ==> k.r.status.StoppedBy? && !Late(k)
    ensures Late(k) ==> k.r.status.StoppedBy?
    ensures LastExit(k) ==> !k.r.status.StoppedBy?
  {
  }

  // ---------------------------------------------------------------- its fields, and the signal held

  /** A breakpoint: of a debug register with the address it watches, or of the user at the
      address of the instruction.  The trap is not passed on to the application. */
  lemma BreakpointReport(m0: Machine, rd: Round, k: Catch)
    requires Catches(m0, rd, k) && UserBptHit(k, rd)
    ensures var kind, g := rd.cause.kind, GetDebugEvent(m0, rd);
            ReportedAs(After(k, rd), k.r.pid, 0,
                       if kind.Hardware? then EventOf(k, BREAKPOINT, Place(k, rd), Bpt(kind.hea, BADADDR))
                       else EventOf(k, BREAKPOINT, TrapAddress(k, rd), Bpt(BADADDR, BADADDR)), g)
  {
    hide GetDebugEvent;
    hide Catches;
    hide Prepared;
    hide ReportedAs;
    PassPrepares(m0, rd, k);
    HitPath(k, rd);
  }

  /** A finished step, at the address behind it; its trap is not passed on either. */
  lemma StepReport(m0: Machine, rd: Round, k: Catch)
    requires Catches(m0, rd, k) && k.r.pid in k.m.threads && StepDone(k, rd)
    ensures ReportedAs(After(k, rd), k.r.pid, 0, ExceptionOf(k, rd).(eid := STEP), GetDebugEvent(m0, rd))
  {
    hide GetDebugEvent;
    hide Catches;
    hide Prepared;
    hide ReportedAs;
    PassPrepares(m0, rd, k);
    StepPath(k, rd);
  }

  /** A signal of the application that is stopped for: its number is the code, and the thread
      holds it unless it is a trap that the table of exceptions masks. */
  lemma ExceptionReport(m0: Machine, rd: Round, k: Catch)
    requires Catches(m0, rd, k) && k.r.pid in k.m.threads && Foreign(k, rd) && !Ignored(k)
    ensures ReportedAs(After(k, rd), k.r.pid, if Trapped(k, rd) && Masked(k) then 0 else k.r.status.sig,
                       EventOf(k, EXCEPTION, Place(k, rd),
                               Exc(ExceptionInfo(k.r.status.sig % TWO_32, true, BADADDR, []))),
                       GetDebugEvent(m0, rd))
  {
    hide GetDebugEvent;
    hide Catches;
    hide Prepared;
    hide ReportedAs;
    hide Trapped;
    PassPrepares(m0, rd, k);
    ForeignPath(k, rd);
  }

  /** One of the debugger's own breakpoints: the events it brought are all there is to tell,
      and its trap is not passed on; without any the application goes on. */
  lemma OwnBptReport(m0: Machine, rd: Round, k: Catch)
    requires Catches(m0, rd, k) && OwnBpt(k, rd)
    ensures var x, g, ev := After(k, rd), GetDebugEvent(m0, rd), ExceptionOf(k, rd);
            if !Returned(rd) then g == Got(if rd.cause.LibraryBpt? then k.m else x, Some(ev))
            else if News(k, rd) then ReportedAs(x, k.r.pid, 0, ev.(eid := NO_EVENT), g)
            else PassedOver(x, ev, rd.env.conts, g)
  {
    hide GetDebugEvent;
    hide Catches;
    hide Prepared;
    hide ReportedAs;
    hide PassedOver;
    PassPrepares(m0, rd, k);
    OwnPath(k, rd);
  }

  /** The end of a thread: PROCESS_EXIT with the exit code or the signal that killed it, or
      THREAD_EXIT at the back of the queue, with the thread gone. */
  lemma ExitReport(m0: Machine, rd: Round, k: Catch)
    requires Catches(m0, rd, k) && k.r.pid in k.m.threads && !k.r.status.StoppedBy?
    ensures var t, st, g := k.r.pid, k.r.status, GetDebugEvent(m0, rd);
            var code := if st.Signaled? then st.termsig else if st.Exited? then st.code else 0;
            if LastExit(k) then
              g.ev == Some(EventOf(k, PROCESS_EXIT, Place(k, rd), ExitCode(code))) && g.m.exited
            else
              && g.ev == Some(EventOf(k, NO_EVENT, Place(k, rd), ExitCode(code)))
              && g.m.events == k.m.events + [Event(THREAD_EXIT, g.ev.value.pid, t, BADADDR, true, ExitCode(0))]
              && g.m.threads == k.m.threads - {t} && g.m.exited == k.m.exited
  {
    hide GetDebugEvent;
    hide Catches;
    hide Prepared;
    PassPrepares(m0, rd, k);
    ExitPath(k, rd);
  }

  /** The SIGSTOP a thread was waited for: it is not reported, and the thread is waited for no
      longer. */
  lemma LateStopReport(m0: Machine, rd: Round, k: Catch)
    requires Catches(m0, rd, k) && k.r.pid in k.m.threads && Late(k)
    ensures var x := k.m.(threads := k.m.threads[k.r.pid := k.m.threads[k.r.pid].(waitingSigstop := false)]);
            PassedOver(x, ExceptionOf(k, rd), rd.env.conts, GetDebugEvent(m0, rd))
  {
    hide GetDebugEvent;
    hide Catches;
    hide Prepared;
    hide PassedOver;
    PassPrepares(m0, rd, k);
    LatePath(k, rd);
  }

  /** A signal that is not stopped for: the application goes on, and its thread is resumed
      with the signal unless the table of exceptions masks it. */
  lemma IgnoredSignal(m0: Machine, rd: Round, k: Catch, r: Resumption)
    requires Catches(m0, rd, k) && k.r.pid in k.m.threads && Foreign(k, rd) && Ignored(k) && !Wanted(k)
    requires r.tid == k.r.pid
    ensures var x := After(k, rd);
            && k.r.pid in x.threads
            && (NewlyResumed(x.resumed, GetDebugEvent(m0, rd).m.resumed, r) <==>
                  && GoesOn(x, rd.env.conts, r.tid)
                  && r.signal == (if Masked(k) then 0 else k.r.status.sig)
                  && r.step == k.m.threads[r.tid].singleStep)
  {
    hide GetDebugEvent;
    hide Catches;
    hide Prepared;
    hide ResumeApp;
    hide After;
    hide GoesOn;
    hide Trapped;
    hide Foreign;
    hide NewlyResumed;
    AfterMarks(k, rd);
    PassPrepares(m0, rd, k);
    ForeignPath(k, rd);
    var x := After(k, rd);
    var y := WithSignal(x, r.tid, ForeignSignal(k, rd));
    ResumeAppIff(y, rd.env.conts, r);
    SignalIrrelevant(x, r.tid, ForeignSignal(k, rd), rd.env.conts, r.tid);
  }

  lemma SignalIrrelevant(x: Machine, u: Tid, signal: nat, conts: map<Tid, ContResult>, t: Tid)
    requires u in x.threads
    ensures GoesOn(WithSignal(x, u, signal), conts, t) <==> GoesOn(x, conts, t)
  {
    hide ContOf;
    var y := WithSignal(x, u, signal);
    forall v ensures Zombified(y, conts, v) <==> Zombified(x, conts, v) {}
    forall v | v in x.threads ensures y.threads[v].Deliverable() <==> x.threads[v].Deliverable() {}
  }

  // ---------------------------------------------------------------- from the report to the application

  /** What the client gets: the event of the pass behind those that were queued on the way, such
      as the libraries found before a breakpoint. */
  lemma FetchReports(m0: Machine, rd: Round)
    requires m0.events == []
    ensures var g := GetDebugEvent(m0, rd);
            g.ev.Some? && g.ev.value.eid != NO_EVENT ==>
              var all := g.m.events + [g.ev.value];
              FetchEvent(m0, [rd])
              == Got(g.m.(events := all[1..], mayRun := false, inEvent := true, requestedToSuspend := false),
                     Some(all[0]))
  {
    hide GetDebugEvent;
    var g := GetDebugEvent(m0, rd);
    assert [rd][1..] == [];
    if g.ev.Some? && g.ev.value.eid != NO_EVENT {
      var q := Enqueue(g.m, g.ev.value, InBack);
      assert q.events == g.m.events + [g.ev.value];
      assert FetchEvent(q, [])
          == Got(q.(events := q.events[1..], inEvent := true, requestedToSuspend := false), Some(q.events[0]));
    }
  }

  /** Report, continue, resume: when a thread is caught with a signal of the application and
      the client is told, the continue that follows resumes the thread with that signal if
      and only if the client does not say that it handled the event and the signal is not
      a masked trap; otherwise it gets none. */
  lemma SignalReachesApplicationIff(m0: Machine, rd: Round, k: Catch, handled: bool, conts: map<Tid, ContResult>,
                                    r: Resumption)
    requires m0.events == [] && Catches(m0, rd, k) && k.r.pid in k.m.threads && Foreign(k, rd) && !Ignored(k)
    requires r.tid == k.r.pid && k.r.status.sig != 0 && GetDebugEvent(m0, rd).m.events == []
    ensures var f := FetchEvent(m0, [rd]);
            && f.ev == Some(ExceptionOf(k, rd))
            && var log := ContinueAfter(f.m, Some(f.ev.value.(handled := handled)), conts).m.resumed;
               (NewlyResumed(f.m.resumed, log, r) ==>
                  && r.signal in {0, k.r.status.sig}
                  && (r.signal == k.r.status.sig <==> !handled && !(Trapped(k, rd) && Masked(k))))
  {
    hide GetDebugEvent;
    hide Catches;
    hide Foreign;
    hide Trapped;
    hide After;
    hide FetchEvent;
    hide ContinueAfter;
    hide NewlyResumed;
    FetchReports(m0, rd);
    ExceptionReport(m0, rd, k);
    var f := FetchEvent(m0, [rd]);
    ContinueResumesIff(f.m, f.ev.value.(handled := handled), conts, r);
  }

  /** After a breakpoint or a step the thread goes on without a signal, whatever the client
      says. */
  lemma TrapStaysHere(m0: Machine, rd: Round, k: Catch, handled: bool, conts: map<Tid, ContResult>, r: Resumption)
    requires m0.events == [] && Catches(m0, rd, k) && k.r.pid in k.m.threads
    requires UserBptHit(k, rd) || StepDone(k, rd)
    requires r.tid == k.r.pid && GetDebugEvent(m0, rd).m.events == []
    ensures var f := FetchEvent(m0, [rd]);
            && f.ev.Some? && f.ev.value.eid == (if StepDone(k, rd) then STEP else BREAKPOINT)
            && var log := ContinueAfter(f.m, Some(f.ev.value.(handled := handled)), conts).m.resumed;
               (NewlyResumed(f.m.resumed, log, r) ==>
                  r.signal == 0)
  {
    hide GetDebugEvent;
    hide Catches;
    hide Trapped;
    hide After;
    hide FetchEvent;
    hide ContinueAfter;
    hide NewlyResumed;
    FetchReports(m0, rd);
    if StepDone(k, rd) { StepReport(m0, rd, k); } else { BreakpointReport(m0, rd, k); }
    var f := FetchEvent(m0, [rd]);
    ContinueResumesIff(f.m, f.ev.value.(handled := handled), conts, r);
  }

  // ---------------------------------------------------------------- new threads

  // The thread a stop announces: a SIGTRAP that carries a clone.
  function Cloned(r: Report): Option<Tid> {
    if r.status.StoppedBy? && r.status.sig == 5 then r.status.clone else None
  }

  // The SIGSTOP of u comes next.
  predicate StopsNext(u: Tid, waits: seq<Report>) {
    var r := NextReport(waits);
    r.pid == u && r.status.StoppedBy? && r.status.sig == 19
  }

  lemma AwaitQueue(m: Machine, u: Tid, waits: seq<Report>)
    requires u in m.threads
    ensures var z := AwaitStop(m, u, waits).m;
            && z.events == m.events && z.process == m.process
            && (z.threads[u].waitingSigstop <==> !StopsNext(u, waits) || m.threads[u].waitingSigstop)
  {
    hide StorePending;
    hide Heard;
    hide Stored;
    var r := NextReport(waits);
    var h := Heard(Awaiting(m, u), r);
    StoreFlags(h, r.pid, r.status);
    StorePendingThread(h, r.pid, r.status, u);
    StoredWaits(h.threads[u], r.status);
  }

  lemma StoredWaits(th: Thread, status: WaitStatus)
    ensures !(status.StoppedBy? && status.sig == 19) ==> Stored(th, status).waitingSigstop == th.waitingSigstop
  {
  }

  // The state before the start of the new thread is announced.
  ghost function Joined(m: Machine, u: Tid, waits: seq<Report>): Stepped {
    var m1 := AddThread(m, u);
    if u in m1.seen then Stepped(ForgetSeen(m1, u), waits) else AwaitStop(m1, u, waits)
  }

  lemma AddedThread(m: Machine, u: Tid)
    ensures var z := AddThread(m, u);
            && z == m.(threads := z.threads) && z.threads.Keys == m.threads.Keys + {u}
            && (u !in m.threads ==> !z.threads[u].waitingSigstop)
  {
  }

  lemma JoinedFacts(m: Machine, u: Tid, waits: seq<Report>)
    ensures var z := Joined(m, u, waits).m;
            && z.events == m.events && z.process == m.process && z.threads.Keys == m.threads.Keys + {u}
            && (u !in m.threads ==> (z.threads[u].waitingSigstop <==> u !in m.seen && !StopsNext(u, waits)))
  {
    hide AwaitStop;
    hide AddThread;
    hide StopsNext;
    AddedThread(m, u);
    AwaitQueue(AddThread(m, u), u, waits);
  }

  /** The stop of a thread that has cloned itself: the new thread is in the table, and its
      start is the first event in the queue.  Its SIGSTOP is waited for unless it was seen
      before or comes next.  Any other report changes nothing here. */
  lemma CloneAnnouncedIff(m: Machine, r: Report, waits: seq<Report>)
    ensures var x, u := HandleExtendedWait(m, r, waits), Cloned(r);
            && (x.prepared <==> u.Some?)
            && (u == None ==> x.m == m && x.waits == waits)
            && (u.Some? ==>
                  && x.m.events == [Event(THREAD_START, ProcessId(m), u.value, BADADDR, true, NoPayload)] + m.events
                  && !x.m.mayRun && x.m.threads.Keys == m.threads.Keys + {u.value}
                  && (u.value !in m.threads ==>
                        (x.m.threads[u.value].waitingSigstop <==> u.value !in m.seen && !StopsNext(u.value, waits))))
  {
    hide AwaitStop;
    hide AddThread;
    hide ForgetSeen;
    if Cloned(r).Some? { JoinedFacts(m, Cloned(r).value, waits); }
  }

  lemma FreezeQueue(m: Machine, tid: Tid, exclude: bool, env: Env)
    ensures var f := Freeze(m, tid, exclude, env).m; m.events <= f.events
  {
    hide KillAll;
    hide WaitAll;
    hide ReapAll;
    var s0 := Signalling(m, {}, []);
    KillAllQueue(s0, SelectedSet(m, tid, exclude), env.kills);
    KillAllEvents(s0, SelectedSet(m, tid, exclude), env.kills);
    var s := Signal(m, tid, exclude, env);
    WaitAllEvents(Waiting(s.m, s.queue, env.waits));
    ReapAllEvents(WaitAll(Waiting(s.m, s.queue, env.waits)).m, s.dead);
  }

  lemma {:induction false} KillAllEvents(s: Signalling, todo: set<Tid>, kills: map<Tid, KillResult>)
    requires todo <= s.m.threads.Keys
    ensures KillAll(s, todo, kills).m.events == s.m.events
    decreases |todo|
  {
    if todo != {} {
      var t := Least(todo);
      KillAllEvents(KillOne(s, t, kills), todo - {t}, kills);
    }
  }

  lemma {:induction false} WaitAllEvents(w: Waiting)
    requires w.queue <= w.m.threads.Keys
    ensures WaitAll(w).m.events == w.m.events
    decreases |w.waits|
  {
    hide StorePending;
    hide Heard;
    if w.queue != {} && w.waits != [] {
      StoreFlags(Heard(w.m, w.waits[0]), w.waits[0].pid, w.waits[0].status);
      WaitAllEvents(WaitOne(w));
    }
  }

  lemma {:induction false} ReapAllEvents(m: Machine, dead: seq<Tid>)
    ensures m.events <= ReapAll(m, dead).events
    decreases |dead|
  {
    if dead != [] { ReapAllEvents(DeadThread(m, dead[0], Dead), dead[1..]); }
  }

  /** The client that asks next is told of the new thread first. */
  lemma CloneFetched(m0: Machine, rd: Round)
    requires m0.events == []
    ensures var c := CheckNewEvents(m0, rd.env.waits, rd.noTimeout);
            c.found.Some? && c.found.value.pid in c.m.threads && c.prepared && c.m.events != []
            && Halt(NotStopped(c.m, c.found.value), c.found.value.pid, rd.env.(waits := c.waits)).done ==>
              FetchEvent(m0, [rd]).ev == Some(c.m.events[0])
  {
    hide CheckNewEvents;
    hide Freeze;
    var c := CheckNewEvents(m0, rd.env.waits, rd.noTimeout);
    if c.found.Some? && c.found.value.pid in c.m.threads && c.prepared && c.m.events != [] {
      var n := NotStopped(c.m, c.found.value);
      var t := c.found.value.pid;
      FreezeQueue(SetThread(n, t, n.threads[t].(state := Stopped)), NO_THREAD, true, rd.env.(waits := c.waits));
      var f := Halt(n, t, rd.env.(waits := c.waits));
      assert f.done ==> c.m.events <= f.m.events;
    }
  }
}
