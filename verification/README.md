# A model of the Android debug server

`android_server6.8-src/jni` is the remote debugger server for Linux and Android: it drives a
process through ptrace, keeps breakpoints in its memory and debug registers, calls functions in
it, and talks to a client over a byte stream. These Dafny files model its state and its
algorithms and prove what they keep. `dafny verify dfyconfig.toml` checks all of them.

The program changes state step by step, so the model does too: classes with the program's
fields, methods with its loops. Each method is proved equal to a function on values (or to a
property outright), and the theorems are about those functions, over all inputs and all runs.
The kernel, the network and the client are arguments: every theorem holds for whatever they
answer, unless it says otherwise.

| part | files |
|---|---|
| thread and event machine | `DebugEvents`, `LeastElement`, `ThreadMachine`, `ThreadOps` (state and steps), `ThreadSafety`, `FreezeNesting`, `KernelContract`, `SignalFlow`, `EventReports`, `CaughtThreads`, `PendingStatuses`, `ThreadOutcomes`, `RequestOutcomes` (theorems), `LinuxDebmod` (the object) |
| memory and software breakpoints | `PtraceWords`, `WordMemory`, `SoftBreakpoints`, `BptOverlay`, `BptBatches`, `BptModule` |
| packets | `Wire`, `WireRecords`, `WireTables`, `RegVals`, `WireLayouts`, `Packets`, `DebugNames`, `Framing`, `Polling` |
| application calls | `AppcallFrame`, `Appcalls` |
| page breakpoints, debug registers | `PageBpts`, `DebugRegisters`, `HwBpts` |
| library table | `DllMovements`, `DllExtents`, `DllModule` |
| linked list | `QList` |

Words are 32 bits wide, as in the armeabi and x86 builds; the application call frame is treated
for 64 bits too. A thread table is iterated in key order. A freeze that still waits for a stop
when the kernel's reports are exhausted is a state of its own (`done` is false), so that runs
cut short are covered. The layout of DR7 is that of section 17.2.4 of the Intel SDM, volume 3B
(18.2.4 in later editions).

## Where the code does less than it seems to

Each of these is a lemma below; where a condition is given it is exact.

- The number reader in `kernwin.cpp` (the file the packers and unpackers are in) tests for its
  longer formats by comparing an unsigned number with a negative one. The test never succeeds,
  so the program itself reads back only numbers up to 0x3FFF; and the upper half of a 64-bit
  number is shifted out of a 32-bit one, which C leaves undefined. The model tells the client's
  reader, which follows the format, from the program's own.
- The comment above `append_ea64` says BADADDR arrives correctly between ends of different
  width; from a 32-bit to a 64-bit end it does not.
- `extract_memory_info` does not mask the permissions.
- Adding a software breakpoint at an address that already has one saves the breakpoint code as
  the original bytes.
- A breakpoint write that stops at a word boundary fails and records nothing, but leaves the
  first half of the code in memory.
- A Thumb breakpoint is added at an odd address and lies at the even one below. Deleting it at
  the address it was added at writes its original bytes one too high; the server's own single
  stepping knows that and clears the bit.
- A software breakpoint that cannot be written falls through to the debug registers with a type
  that is none of theirs, and spills into the length bits.
- `find_hwbpt_slot` takes an empty slot without looking behind it, so breakpoints can be doubled.
- The two scans of `retrieve_pending_signal` for STEP and SIGTRAP do not influence its result.
- Assertion 30057 fails when the first SIGSTOP of a new thread comes late, and 30185 when a
  thread is killed while its signal waits to be delivered.
- Suspending and continuing a single thread balances only in one case.
- The rule that GET_DEBUG_EVENT fails until RPC_EVOK, stated in `consts.h`, is not enforced.
- An application call that ends with the process leaves its context behind.
- A page breakpoint that reaches the end of the address space is never found, and can hide the
  one before it.

## Model

| member | source | states |
|---|---|---|
| ThreadSafety.ReachableSafe | android_server6.8-src/jni/linux_debmod.cpp:365-373 | in every reachable state, whatever the requests and the kernel's answers: a queued or undelivered event of a live process keeps `may_run` false, a running thread has suspend count 0 (30188), the pending counter covers the threads with a pending status (30186) |
| ThreadSafety.NoResumeBeforeContinue | android_server6.8-src/jni/linux_debmod.cpp:953-980 | from delivery of an event until a continue, the end of the session or the taking up of a broken one, no sequence of requests resumes a thread through `dbg_thaw_threads`, suspend/resume brackets around memory access included |
| ThreadSafety.RunInv | android_server6.8-src/jni/linux_debmod.cpp:1105-1182 | the three invariants hold over whole runs from any state that satisfies them |
| ThreadSafety.ReconnectInv | android_server6.8-src/jni/linux_debmod.cpp:3074-3097 | taking up a broken session keeps the invariants, also when the file of memory areas cannot be opened, and holds the application |
| ThreadSafety.RetrieveSucceedsIff | android_server6.8-src/jni/linux_debmod.cpp:462-521 | a pending status is delivered if and only if some thread has one with both suspend counts zero, the thread condition of `has_pending_events` |
| ThreadSafety.PriorityIff | android_server6.8-src/jni/linux_debmod.cpp:481-504 | the priorities STEP, SIGTRAP, others: unless the thread of the last event is chosen, a stepping thread is delivered if and only if some deliverable stepping thread comes before every deliverable thread that is not stepping; the same for breakpoint stops |
| ThreadSafety.StepPassedOver | android_server6.8-src/jni/linux_debmod.cpp:481-504 | concrete case: thread 1 with any pending status is preferred to thread 2 that was single-stepped |
| EventReports.EventIff | android_server6.8-src/jni/linux_debmod.cpp:725-950 | for every frozen state and every report, exactly which event a pass of `get_debug_event` yields: BREAKPOINT at a breakpoint of the user or a debug register, STEP when a stepping thread traps at neither, EXCEPTION for a signal of the application that is stopped for (or an own breakpoint that cannot be returned from), PROCESS_EXIT for the last or main thread, PROCESS_SUSPEND or silence when there is nothing to tell, no event of its own when others were queued |
| EventReports.BreakpointReport | android_server6.8-src/jni/linux_debmod.cpp:887-896 | a breakpoint event carries the watched address of a debug register, or the address of the instruction (x86: one before the instruction pointer); the thread holds no signal and steps no more |
| EventReports.StepReport | android_server6.8-src/jni/linux_debmod.cpp:897-900 | a stepping thread that traps at no known breakpoint yields STEP, and its SIGTRAP is not kept |
| EventReports.ExceptionReport | android_server6.8-src/jni/linux_debmod.cpp:785-919 | an exception event carries the signal as code; the thread holds it, unless it is a trap masked by the exception table |
| EventReports.OwnBptReport | android_server6.8-src/jni/linux_debmod.cpp:825-874 | at the debugger's own library and thread breakpoints: the events they brought are all there is to tell, without any the application goes on, and no signal is kept |
| EventReports.ExitReport | android_server6.8-src/jni/linux_debmod.cpp:921-944 | PROCESS_EXIT with the exit code or the killing signal; else THREAD_EXIT at the back of the queue and the thread is gone |
| EventReports.LateStopReport | android_server6.8-src/jni/linux_debmod.cpp:789-796 | a SIGSTOP the thread was waited for is not reported, and the thread is waited for no longer |
| EventReports.IgnoredSignal | android_server6.8-src/jni/linux_debmod.cpp:911-919 | a signal the exception table does not stop for: the thread goes on under an exact condition, with the signal unless the table masks it |
| EventReports.SignalReachesApplicationIff | android_server6.8-src/jni/linux_debmod.cpp:1198-1246 | report, continue, resume: a thread caught with a signal of the application is resumed with it if and only if the client did not handle the event and it is no masked trap; otherwise with none |
| EventReports.FetchReports | android_server6.8-src/jni/linux_debmod.cpp:953-980 | the event of a pass is handed out behind those queued on the way, such as libraries found before a breakpoint |
| EventReports.TrapStaysHere | android_server6.8-src/jni/linux_debmod.cpp:1198-1246 | after a breakpoint or a step the thread is resumed without a signal, whatever the client says |
| CaughtThreads.CaughtSteady | android_server6.8-src/jni/linux_debmod.cpp:725-753 | looking for a status and freezing the threads change neither what the client has set (flags, process, exception table) nor how the caught thread was being run and with which signal |
| CaughtThreads.StepsAreReported | android_server6.8-src/jni/linux_debmod.cpp:897-911 | so a thread that the client lets step and that traps where no breakpoint is known is reported with STEP, and its SIGTRAP does not reach the application |
| EventReports.CloneAnnouncedIff | android_server6.8-src/jni/linux_threads.cpp:1060-1115 | the stop of a cloning thread puts the new thread in the table and its THREAD_START in front of the queue; its SIGSTOP is awaited unless seen before or next; any other report changes nothing |
| EventReports.CloneFetched | android_server6.8-src/jni/linux_debmod.cpp:755-760 | and the client that asks is told of the new thread first |
| SignalFlow.ContinueResumesIff | android_server6.8-src/jni/linux_debmod.cpp:1198-1246 | exactly which threads a continue resumes, with which signal and whether by a single step: the event's thread with none unless the event is an unhandled exception or one of the four about threads and libraries, every other with the one it holds |
| SignalFlow.ContinueSignals | android_server6.8-src/jni/linux_debmod.cpp:1214-1243 | after a continue every thread left holds its signal, that of the event none unless it is passed on; a dying thread of the event is let go, a dead one forgotten |
| SignalFlow.ResumeAppIff | android_server6.8-src/jni/linux_debmod.cpp:1250-1266 | exactly which threads `resume_app` resumes, each with the signal it holds: none while anything is queued or deliverable |
| PendingStatuses.StatusNotLost | android_server6.8-src/jni/linux_debmod.cpp:384-521 | no pending status is lost or altered: over every run of requests that bring no further report of the thread and do not end the session, it is delivered as it was stored or still in its thread |
| PendingStatuses.DeliveredIff | android_server6.8-src/jni/linux_debmod.cpp:462-521 | what `retrieve_pending_signal` hands out is the status stored in that thread; it is taken from that thread alone and counted once |
| PendingStatuses.StoredIff | android_server6.8-src/jni/linux_debmod.cpp:384-411 | a status is stored as it is and counted once, unless it is the awaited SIGSTOP |
| PendingStatuses.FoundGenuine | android_server6.8-src/jni/linux_debmod.cpp:661-718 | what `check_for_new_events` finds is a report of the kernel as it came, or the status that was stored for its thread |
| ThreadOutcomes.ThawOutcome | android_server6.8-src/jni/linux_debmod.cpp:1105-1182 | a thaw, thread by thread, exactly: one suspension less for a selected thread that is not running, and its state: running, dead (dying, or the first zombie), or as it was |
| ThreadOutcomes.ThawReportsIff | android_server6.8-src/jni/linux_debmod.cpp:1147-1175 | a thaw queues the exit of the first zombie alone, which holds the application, and fails if and only if the kernel refuses a thread before that |
| ThreadOutcomes.FreezeKeepsReport | android_server6.8-src/jni/linux_debmod.cpp:1054-1085 | a freeze loses no report: the last one it takes in for a thread that is not a SIGSTOP is pending in it afterwards, unless the thread is gone |
| ThreadOutcomes.AwaitKeepsReport | android_server6.8-src/jni/linux_threads.cpp:712-736 | nor does the wait for the first stop of a new thread: another report it takes in is pending in its thread, and the stop is still awaited |
| ThreadOutcomes.AddedThread | android_server6.8-src/jni/linux_debmod.cpp:1753-1756 | a new thread is stopped, without suspensions, signal or status; a known one stays as it is |
| ThreadOutcomes.StrangerStored | android_server6.8-src/jni/linux_debmod.cpp:412-445 | a stop of an unknown thread is remembered for its clone, unless the thread was deleted lately |
| ThreadOutcomes.SeenOnce | android_server6.8-src/jni/linux_threads.cpp:1083-1084 | a clone uses up one remembered stop, the first |
| ThreadOutcomes.DeletedThread | android_server6.8-src/jni/linux_debmod.cpp:1759-1771 | a deleted thread takes its status out of the count and is the last of the ten deletions remembered |
| ThreadOutcomes.SideStepOutcome | android_server6.8-src/jni/linux_threads.cpp:602-643 | what each thread_db or library message does to queue and table |
| ThreadOutcomes.DropsFirst | android_server6.8-src/jni/linux_debmod.cpp:351-362 | `del_pending_event` takes out the first event of that kind and module, no other |
| RequestOutcomes.FreshFirst | android_server6.8-src/jni/linux_debmod.cpp:661-681 | a fresh report of a known thread is taken up before any pending status |
| RequestOutcomes.StrangerPassed | android_server6.8-src/jni/linux_debmod.cpp:697-713 | a report of a thread that is not in the table is stored, and the enquiry goes on without waiting |
| RequestOutcomes.StepRequested | android_server6.8-src/jni/linux_debmod.cpp:2289-2299 | asking for a step marks the thread and nothing else |
| RequestOutcomes.PendingNext | android_server6.8-src/jni/linux_debmod.cpp:672-690 | then a pending status; only without either does the enquiry wait, once, if it may |
| RequestOutcomes.FetchQueued | android_server6.8-src/jni/linux_debmod.cpp:953-980 | a queued event is handed out first in, first out, without asking for another |
| RequestOutcomes.AccessRestores | android_server6.8-src/jni/linux_debmod.cpp:1278-1279 | the bracket of a memory access restores the suspensions of every thread that survives its freeze |
| RequestOutcomes.ContinueAccepted | android_server6.8-src/jni/linux_debmod.cpp:1198-1246 | a continue is refused, and changes nothing, exactly for an event of an unknown thread that is no exit, while the process has not exited; else no event is being handled afterwards |
| RequestOutcomes.PauseOutcome | android_server6.8-src/jni/linux_debmod.cpp:1988-2001 | a pause holds the application, asks for its suspension, and awaits the SIGSTOP of the first thread if nothing is queued |
| RequestOutcomes.SuspendOutcome | android_server6.8-src/jni/linux_debmod.cpp:2261-2270 | suspending one thread freezes it and counts once in both counts |
| RequestOutcomes.KillOutcome | android_server6.8-src/jni/linux_debmod.cpp:2005-2044 | every thread up to the first that cannot be killed is let run without suspensions; the process is forgotten if and only if all could be |
| RequestOutcomes.DetachOutcome | android_server6.8-src/jni/linux_debmod.cpp:1934-1975 | PROCESS_DETACH goes behind everything queued and nothing is left; a failing detach changes nothing |
| RequestOutcomes.StartOutcome | android_server6.8-src/jni/linux_debmod.cpp:1774-1847 | the first thread is in the table, the application held, and PROCESS_START (and PROCESS_ATTACH) follow what the interpreter brought |
| RequestOutcomes.TerminateOutcome | android_server6.8-src/jni/linux_debmod.cpp:1563-1600 | the end of a session leaves no thread, event, count or flag |
| KernelContract.AssertionsExcused | android_server6.8-src/jni/linux_debmod.cpp:396-411 | over every run of requests in which a stopped thread reports no stop until it is resumed: 30057 fails only for a thread taken for stopped whose SIGSTOP is still awaited, 30185 only for a thread with a pending status that is killed by a signal |
| KernelContract.NotStoppedIff | android_server6.8-src/jni/linux_debmod.cpp:744-746 | in every reachable state: 30057 fails if and only if the reporting thread is STOPPED with its SIGSTOP awaited and reports a stop |
| KernelContract.NoneLostIff | android_server6.8-src/jni/linux_debmod.cpp:396-400 | in every reachable state: 30185 fails if and only if the thread has a pending status and is killed by a signal |
| KernelContract.LateStopFails | android_server6.8-src/jni/linux_debmod.cpp:744-746 | concrete run: the first SIGSTOP of a new thread that comes late fails 30057 |
| KernelContract.KilledPendingFails | android_server6.8-src/jni/linux_debmod.cpp:396-400 | concrete run: a thread killed while its signal waits to be delivered fails 30185 |
| KernelContract.RunSound | android_server6.8-src/jni/linux_debmod.cpp:384-445 | what this rests on: in every reachable state a pending status and the state STOPPED without an awaited SIGSTOP belong to threads the kernel holds stopped, and a STOPPED thread with a pending stop awaits its SIGSTOP |
| KernelContract.StoreSound | android_server6.8-src/jni/linux_debmod.cpp:384-411 | storing a report keeps that |
| KernelContract.GetDebugEventSound | android_server6.8-src/jni/linux_debmod.cpp:725-950 | so does a pass of `get_debug_event`, whatever it finds |
| ThreadSafety.FreezeInv | android_server6.8-src/jni/linux_debmod.cpp:1024-1102 | freezing keeps the invariants, resumes nothing and does not let the application run |
| ThreadSafety.ThawInv | android_server6.8-src/jni/linux_debmod.cpp:1105-1182 | thawing keeps the invariants and resumes threads only while the application may run and has not exited |
| ThreadSafety.ResumeAppInv | android_server6.8-src/jni/linux_debmod.cpp:1250-1266 | `resume_app` establishes the invariants: it sets `may_run` only when nothing is pending |
| ThreadSafety.ContinueAfterInv | android_server6.8-src/jni/linux_debmod.cpp:1198-1246 | continuing keeps the invariants, also when it buries a dead thread or releases a dying one |
| ThreadSafety.StorePendingInv | android_server6.8-src/jni/linux_debmod.cpp:384-445 | storing a status keeps the counter at or above the number of threads with a pending status |
| ThreadSafety.DeadThreadInv | android_server6.8-src/jni/linux_threads.cpp:739-763 | a dying or dead thread keeps the invariants; its pending status leaves the count with it |
| ThreadSafety.HandleExtendedWaitInv | android_server6.8-src/jni/linux_threads.cpp:1060-1115 | the report of a cloned thread keeps the invariants |
| ThreadSafety.CheckNewEventsInv | android_server6.8-src/jni/linux_debmod.cpp:661-718 | looking for a new status keeps the invariants and resumes nothing |
| ThreadSafety.GetDebugEventInv | android_server6.8-src/jni/linux_debmod.cpp:725-950 | one pass of `get_debug_event` keeps the invariants, and resumes nothing while an event is being handled |
| ThreadSafety.FetchEventInv | android_server6.8-src/jni/linux_debmod.cpp:953-980 | fetching an event keeps the invariants; delivering one sets `in_event` |
| FreezeNesting.FreezeStops | android_server6.8-src/jni/linux_debmod.cpp:1024-1102 | when kills succeed or report ESRCH, a completed freeze leaves no selected surviving thread running and adds exactly 1 to its suspend count |
| FreezeNesting.ThawResumesIff | android_server6.8-src/jni/linux_debmod.cpp:1105-1182 | exactly which threads a thaw resumes, with which signal and whether by a single step: selected, stopped, at most one suspension left, none by the user, no pending status, while the application may run, and no selected thread before it is a zombie the thaw would wake |
| FreezeNesting.FreezeThawNesting | android_server6.8-src/jni/linux_debmod.cpp:1105-1182 | k completed freezes followed by k thaws restore every surviving thread's count, and only the last thaw can resume anything |
| FreezeNesting.SuspendContinueBalance | android_server6.8-src/jni/linux_debmod.cpp:2261-2285 | n suspensions and n continues of one thread restore its suspend count if and only if n is 1 and the user had not suspended it before |
| LinuxDebmod.Debmod.constructor | android_server6.8-src/jni/linux_debmod.cpp:104-117 | a new module is in the initial state |
| LinuxDebmod.Debmod.EnqueueEvent | android_server6.8-src/jni/linux_debmod.cpp:365-373 | queues at the asked end and holds the application; NO_EVENT changes nothing |
| LinuxDebmod.Debmod.DelPendingEvent | android_server6.8-src/jni/linux_debmod.cpp:351-362 | erases the first queued event of that kind for that module, keeps the rest in order, and says whether there was one |
| LinuxDebmod.Debmod.AddThread | android_server6.8-src/jni/linux_debmod.cpp:1753-1756 | a known thread is kept as it is, a new one starts stopped |
| LinuxDebmod.Debmod.DelThread | android_server6.8-src/jni/linux_debmod.cpp:1759-1771 | the thread is gone, its pending status uncounted, its id remembered among the last ten |
| LinuxDebmod.Debmod.DeadThread | android_server6.8-src/jni/linux_threads.cpp:739-763 | state changed, THREAD_EXIT queued at the back, a dead thread removed; unknown threads ignored |
| LinuxDebmod.Debmod.StorePendingSignal | android_server6.8-src/jni/linux_debmod.cpp:384-445 | an awaited SIGSTOP is absorbed; any other status is kept and counted; unknown threads are remembered if stopped |
| LinuxDebmod.Debmod.ScanPending | android_server6.8-src/jni/linux_debmod.cpp:481-504 | the first deliverable thread of the priority class, none exactly when the class is empty |
| LinuxDebmod.Debmod.RetrievePendingSignal | android_server6.8-src/jni/linux_debmod.cpp:462-521 | the thread of the last event if deliverable, else the first deliverable one in thread order: the scans for STEP and SIGTRAP have no effect on the choice |
| LinuxDebmod.Debmod.SendStops | android_server6.8-src/jni/linux_debmod.cpp:1031-1053 | every selected thread is signalled once and counted, running ones queued, vanished ones set aside |
| LinuxDebmod.Debmod.AwaitStops | android_server6.8-src/jni/linux_debmod.cpp:1054-1085 | the queued threads' stops are consumed, other reports stored for later |
| LinuxDebmod.Debmod.FreezeThreads | android_server6.8-src/jni/linux_debmod.cpp:1024-1102 | the whole freeze equals signalling, waiting and burying in that order |
| LinuxDebmod.Debmod.ThawThreads | android_server6.8-src/jni/linux_debmod.cpp:1105-1182 | each selected thread that is not running loses one suspension and is resumed only if nothing else holds it |
| LinuxDebmod.Debmod.WakeThread | android_server6.8-src/jni/linux_debmod.cpp:1147-1175 | the outcome of a resume request: running, refused, or a zombie whose exit is queued |
| LinuxDebmod.Debmod.ResumeApp | android_server6.8-src/jni/linux_debmod.cpp:1250-1266 | `may_run` is recomputed from the pending events before all threads are thawed |
| LinuxDebmod.Debmod.SettleThread | android_server6.8-src/jni/linux_debmod.cpp:1214-1243 | the event's thread: signal cleared unless it must be passed on, a dying thread released, a dead one buried |
| LinuxDebmod.Debmod.ContinueAfterEvent | android_server6.8-src/jni/linux_debmod.cpp:1198-1246 | refuses unknown threads unless exiting, else settles the thread, leaves the event and resumes |
| LinuxDebmod.Debmod.AwaitStop | android_server6.8-src/jni/linux_threads.cpp:712-736 | the SIGSTOP of a new thread is consumed or noted as awaited; another thread's report is stored |
| LinuxDebmod.Debmod.HandleExtendedWait | android_server6.8-src/jni/linux_threads.cpp:1060-1115 | a clone report adds the thread, consumes its early stop if seen, and queues THREAD_START in front |
| LinuxDebmod.Debmod.CheckForNewEvents | android_server6.8-src/jni/linux_debmod.cpp:661-718 | a fresh report is preferred to a pending one; reports of unknown threads are stored and the search goes on |
| LinuxDebmod.Debmod.TakeSideSteps | android_server6.8-src/jni/linux_threads.cpp:602-643 | thread_db messages and library changes applied one by one |
| LinuxDebmod.Debmod.HandleBpt | android_server6.8-src/jni/linux_debmod.cpp:820-920 | the event for a breakpoint signal by its cause, or silent resumption |
| LinuxDebmod.Debmod.HandleStop | android_server6.8-src/jni/linux_debmod.cpp:779-929 | the event for a stop signal with the exception table applied |
| LinuxDebmod.Debmod.HandleExit | android_server6.8-src/jni/linux_debmod.cpp:929-944 | PROCESS_EXIT for the last or main thread, else the thread is buried without an event |
| LinuxDebmod.Debmod.HaltThreads | android_server6.8-src/jni/linux_debmod.cpp:750-753 | the reporting thread is stopped, all are frozen, the application is held |
| LinuxDebmod.Debmod.GetDebugEvent | android_server6.8-src/jni/linux_debmod.cpp:725-950 | one pass from kernel report to event |
| LinuxDebmod.Debmod.FetchEvent | android_server6.8-src/jni/linux_debmod.cpp:953-980 | the first queued event is handed out with `in_event` set; otherwise passes repeat until one is queued or none is found |
| LinuxDebmod.Debmod.BracketMemory | android_server6.8-src/jni/linux_debmod.cpp:1278-1279 | the suspend/resume bracket of a memory access |
| LinuxDebmod.Debmod.ThreadSuspend | android_server6.8-src/jni/linux_debmod.cpp:2261-2270 | freeze one thread and count a user suspension |
| LinuxDebmod.Debmod.ThreadContinue | android_server6.8-src/jni/linux_debmod.cpp:2274-2285 | only the last user suspension thaws |
| LinuxDebmod.Debmod.PrepareToPause | android_server6.8-src/jni/linux_debmod.cpp:1988-2001 | with no event queued the first thread awaits a SIGSTOP; the application is held |
| LinuxDebmod.Debmod.Kill | android_server6.8-src/jni/linux_debmod.cpp:2005-2044 | all threads frozen and killed; the process is marked exited even on failure |
| WordMemory.ProcessMemory.WriteMemory | android_server6.8-src/jni/linux_debmod.cpp:1362-1428 | any address and length: with succeeding accesses memory is the old image with exactly the buffer's bytes replaced; otherwise the bytes before the first word that cannot be written are, and 0 is returned; success is characterised exactly |
| WordMemory.ProcessMemory.WriteChunk | android_server6.8-src/jni/linux_debmod.cpp:1384-1422 | one masked read-modify-write changes the chunk's bytes alone, or nothing when an access is refused; POKEDATA is the second try |
| WordMemory.ProcessMemory.ReadMemory | android_server6.8-src/jni/linux_debmod.cpp:1272-1359 | the buffer holds the right bytes up to the first word that cannot be read and is untouched beyond; the retry terminates |
| WordMemory.ProcessMemory.PeekMemory | android_server6.8-src/jni/linux_debmod.cpp:1310-1352 | the peek loop delivers a correct prefix, complete unless a peek fails |
| WordMemory.ProcessMemory.ReadChunk | android_server6.8-src/jni/linux_debmod.cpp:1317-1349 | part of a word, whole or by shifting, equals the memory bytes at its address |
| WordMemory.MergedWord | android_server6.8-src/jni/linux_debmod.cpp:1390-1406 | the word poked has the chunk's bytes at their places and the previous bytes elsewhere, whatever the uninitialised copy held |
| WordMemory.CopyBytes | android_server6.8-src/jni/linux_debmod.cpp:1338-1343 | the shift-and-copy loop stores the low bytes of the word in order |
| PtraceWords.MergeBytes | android_server6.8-src/jni/linux_debmod.cpp:1400-1405 | mask, shift and merge replace exactly the selected bytes of a word |
| PtraceWords.ShrStep | android_server6.8-src/jni/linux_debmod.cpp:1338-1343 | shifting a word down by bytes brings its bytes to the bottom in memory order |
| WordMemory.ReadAfterWrite | android_server6.8-src/jni/linux_debmod.cpp:1437-1440 | reading a written range gives the buffer back |
| WordMemory.WriteFrame | android_server6.8-src/jni/linux_debmod.cpp:1431-1434 | a write does not change a range apart from it |
| WordMemory.WriteBack | android_server6.8-src/jni/linux_debmod.cpp:1431-1434 | writing back what was read before undoes a write |
| WordMemory.WriteSplit | android_server6.8-src/jni/linux_debmod.cpp:1384-1422 | two adjacent writes are one write of the concatenation, wrapping addresses included |
| WordMemory.OneWordAtomic | android_server6.8-src/jni/linux_debmod.cpp:1384-1422 | bytes within one word are written all or none |
| BptOverlay.RunOverlayIff | android_server6.8-src/jni/linux_debmod.cpp:2121-2226 | over runs of additions, deletions, resumptions and other writes of any address and alignment, torn writes included: memory is the clean image with code exactly at the active breakpoints, and every saved copy equals the clean bytes, all along the run if and only if every request meets its condition |
| BptOverlay.FreshRunOverlay | android_server6.8-src/jni/linux_debmod.cpp:2121-2226 | the same from an empty table: the memory found is the clean image |
| BptOverlay.StepKeepsIff | android_server6.8-src/jni/linux_debmod.cpp:2121-2226 | one request keeps the law if and only if it meets its condition |
| BptOverlay.AddKeepsOverlayIff | android_server6.8-src/jni/linux_debmod.cpp:2169-2175 | adding keeps the law if and only if nothing can be read there, or a write that stops early changes no byte, or the code is clear of the other breakpoints and the address is not active (or its code happens to equal the saved bytes); any code, any alignment, second additions of another length included |
| BptOverlay.ReAddLosesByte | android_server6.8-src/jni/linux_debmod.cpp:2169-2175 | concrete case: adding twice at one address and deleting with the bytes saved last leaves 0xCC behind |
| BptOverlay.TornAddLeavesHalf | android_server6.8-src/jni/linux_debmod.cpp:2160-2175 | concrete case: 32-bit Thumb code at 0x1002 with the word at 0x1004 refused; the addition fails, records nothing and leaves the first half in memory |
| BptOverlay.NeverTornIff | android_server6.8-src/jni/linux_debmod.cpp:1384-1422 | breakpoint code is written whole or not at all, whatever the kernel refuses, if and only if it lies within one word |
| BptOverlay.WrittenWasRead | android_server6.8-src/jni/linux_debmod.cpp:2169-2175 | a recorded breakpoint never has undefined bytes as its original bytes, although the read is only tested for not being empty |
| BptOverlay.DelKeepsOverlayIff | android_server6.8-src/jni/linux_debmod.cpp:2208-2226 | deleting with any bytes at any address keeps the law if and only if a write that stops early changes no byte, and a complete one gives each byte its clean value, or leaves it where another breakpoint covers it, up to the end of the code |
| BptOverlay.DelOverlay | android_server6.8-src/jni/linux_debmod.cpp:2208-2226 | in particular with the clean bytes of a breakpoint that no other one touches |
| BptOverlay.ForgetOverlay | android_server6.8-src/jni/linux_debmod.cpp:1253-1261 | forgetting deleted breakpoints on resumption keeps the law |
| BptOverlay.PatchKeepsOverlayIff | android_server6.8-src/jni/linux_debmod.cpp:1431-1434 | a client write changes memory and clean image alike and keeps the law if and only if it changes no byte of a recorded breakpoint |
| BptOverlay.RestoreCleans | android_server6.8-src/jni/debmod.cpp:1158-1169 | after restoring, a byte is not clean if and only if it was not before and no write reached it, torn writes included; memory is clean if every write went through |
| BptBatches.BatchUndoIff | android_server6.8-src/jni/debmod.cpp:1029-1101 | a batch of x86, ARM, 16- and 32-bit Thumb and hardware breakpoints in any state, then deletion of its successful entries with the reported bytes, at the even address on ARM: memory is what it was if and only if for every entry each byte of code that was written is written back or equal to the byte it replaced; writes that stop early included |
| BptBatches.BatchUndo | android_server6.8-src/jni/debmod.cpp:1029-1101 | so memory is what it was when no write is torn and every deletion complete |
| BptBatches.UndoneIff | android_server6.8-src/jni/debmod.cpp:1029-1101 | writes apart from each other, then writing back the first bytes of each range, restore memory if and only if what is not written back is harmless |
| BptBatches.AddEntriesMem | android_server6.8-src/jni/debmod.cpp:1035-1084 | every entry writes and reports what it would on its own, whatever the other entries of the batch do |
| BptBatches.OddDeletionIff | android_server6.8-src/jni/arm_debmod.cpp:319-328 | deleting a Thumb entry at the odd address it was added at writes the reported bytes one address too high: if w of them are written, memory comes back if and only if the w + 1 bytes from the even address on all equal the first byte of the breakpoint code and the code equals what it replaced behind them |
| BptBatches.OddDeletionMisses | android_server6.8-src/jni/arm_debmod.cpp:319-328 | concrete case: in zeroed memory the first byte of the code stays behind |
| BptBatches.PutBackIff | android_server6.8-src/jni/debmod.cpp:1086-1098 | for every deletion address and a write of any length: memory comes back if and only if the bytes written are there already and code outside their range equals what it replaced |
| BptBatches.LocateCode | android_server6.8-src/jni/linux_debmod.cpp:2187-2203 | for an odd address `read_bpt_orgbytes` steps back and asks for 16- or 32-bit Thumb code as the instruction in memory demands, and reports the bytes that will be overwritten |
| BptBatches.AddBatch | android_server6.8-src/jni/debmod.cpp:1035-1084 | a batch whose writes are not torn, hardware entries included, keeps the law, reports the clean bytes for every software breakpoint and touches no other |
| BptBatches.DelBatch | android_server6.8-src/jni/debmod.cpp:1086-1098 | deleting recorded entries keeps the law and deactivates exactly the software breakpoints among them |
| SoftBreakpoints.CodeWritten | android_server6.8-src/jni/linux_debmod.cpp:2121-2168 | which bytes are written for which request: INT 3 on x86; on ARM the 16-bit, the 32-bit or the ARM code, by length and, if none is given, by opcode |
| SoftBreakpoints.Thumb32Iff | android_server6.8-src/jni/linux_debmod.cpp:2187-2203 | an opcode is the first half of a 32-bit Thumb instruction if and only if its top five bits are 11101, 11110 or 11111 |
| SoftBreakpoints.EntryTold | android_server6.8-src/jni/debmod.cpp:1035-1084 | what an entry of a batch is told: 7 when nothing could be read, 8 when the breakpoint could not be added, the bytes found otherwise; one to be skipped is left alone |
| SoftBreakpoints.DeletionTold | android_server6.8-src/jni/debmod.cpp:1086-1098 | a deletion is told 0 or 8 |
| SoftBreakpoints.DeletionWrites | android_server6.8-src/jni/linux_debmod.cpp:2208-2226 | a deletion writes the first bytes given, as many as asked for, and marks the address exactly when all were written |
| SoftBreakpoints.ForgottenIff | android_server6.8-src/jni/linux_debmod.cpp:1253-1261 | exactly the deleted breakpoints leave the table when the application runs |
| SoftBreakpoints.CountOkIs | android_server6.8-src/jni/debmod.cpp:1029-1101 | the result of a batch is the number of entries that came out well |
| BptOverlay.OverlayDetermines | android_server6.8-src/jni/linux_debmod.cpp:2169-2175 | the clean image and the active breakpoints determine the memory |
| BptModule.BptTable.DbgAddBpt | android_server6.8-src/jni/linux_debmod.cpp:2121-2183 | the software attempt, and what is left to a debug register on x86 when it fails |
| BptModule.BptTable.ChooseCode | android_server6.8-src/jni/linux_debmod.cpp:2124-2168 | the code for a requested length; a negative one is decided by the opcode at the address on ARM |
| BptModule.BptTable.AddSoft | android_server6.8-src/jni/linux_debmod.cpp:2169-2175 | saves what was read, writes the code, and records the breakpoint only if all of it was written |
| BptModule.BptTable.DbgDelBpt | android_server6.8-src/jni/linux_debmod.cpp:2208-2226 | writes as many of the given bytes back as asked and marks the address deleted only on success; an empty write counts as one |
| BptModule.BptTable.ForgetRemoved | android_server6.8-src/jni/linux_debmod.cpp:1253-1261 | deleted breakpoints leave the table, the others stay |
| BptModule.BptTable.RestoreBroken | android_server6.8-src/jni/debmod.cpp:1158-1169 | every saved copy is written back in address order, the table ends empty |
| BptModule.BptTable.ReadBytes | android_server6.8-src/jni/debmod.cpp:1010-1026 | the original bytes, or zeros if the debugger continues from breakpoints by itself; fails when nothing can be read |
| BptModule.BptTable.ReadBptOrgbytes | android_server6.8-src/jni/linux_debmod.cpp:2187-2203 | the Thumb address without its T bit, length 2, and the 32-bit variant with two more bytes when the opcode is the first half of a 32-bit instruction |
| BptModule.BptTable.AddOne | android_server6.8-src/jni/debmod.cpp:1035-1084 | one entry of a batch: skip, read error, write error or success with the original bytes, at the place `read_bpt_orgbytes` finds |
| BptModule.BptTable.UpdateBpts | android_server6.8-src/jni/debmod.cpp:1029-1101 | additions first, then deletions, in place in the caller's array; the count is that of the entries that came out well |
| Wire.DdRoundTripIff | android_server6.8-src/jni/rpc_hlp.h:20-23 | a double word is extracted as appended, consuming exactly its bytes whatever follows, for the client always; for this program's own reader if and only if it is at most 0x3FFF |
| Wire.ServerMisreads | android_server6.8-src/jni/rpc_hlp.h:20-23 | concrete case: 0x4001 is read by the program as 0x4000 from two of its four bytes |
| Wire.DqRoundTripIff | android_server6.8-src/jni/rpc_hlp.h:24-27 | the same for quad words, with the exact condition for the program's reader |
| Wire.EaRoundTripIff | android_server6.8-src/jni/rpc_hlp.h:80-88 | the same for addresses, BADADDR included |
| Wire.EaAcrossWidths | android_server6.8-src/jni/rpc_hlp.h:77-88 | an address packed by an end of either width and unpacked by one of either width arrives modulo the receiver's width; BADADDR does unless it goes from 32 to 64 bits |
| Wire.StrRoundTrip | android_server6.8-src/jni/rpc_hlp.h:41-63 | a NUL-free string is extracted as appended, whatever follows |
| Wire.StrAbortIff | android_server6.8-src/jni/rpc_hlp.h:54-63 | extraction fails if and only if no terminator follows |
| WireRecords.EventRoundTrip | android_server6.8-src/jni/rpc_hlp.cpp:169-246 | events of every identifier survive with the member the identifier selects, consuming exactly their bytes |
| WireRecords.PayloadRoundTrip | android_server6.8-src/jni/rpc_hlp.cpp:176-205 | the member of the union selected by the identifier survives |
| WireRecords.ModuleRoundTrip | android_server6.8-src/jni/rpc_hlp.cpp:131-147 | module descriptions survive when the name is shorter than MAXSTR |
| WireRecords.ExceptionRoundTrip | android_server6.8-src/jni/rpc_hlp.cpp:150-166 | exception descriptions survive when the text is shorter than MAXSTR |
| WireRecords.ClientReadsEvents | android_server6.8-src/jni/rpc_hlp.cpp:209-246 | for the client only the C types and the string lengths limit what survives |
| WireRecords.ListRoundTrip | android_server6.8-src/jni/rpc_hlp.cpp:249-282 | a list is extracted item by item as what its items are extracted as |
| WireTables.ExcTableRoundTrip | android_server6.8-src/jni/rpc_hlp.cpp:249-282 | exception tables survive with their count |
| WireTables.CallStackRoundTrip | android_server6.8-src/jni/rpc_hlp.cpp:285-313 | call stacks survive |
| WireTables.RegObjRoundTrip | android_server6.8-src/jni/rpc_hlp.cpp:316-384 | a register object survives; without values its size does |
| WireTables.RelObjRoundTrip | android_server6.8-src/jni/rpc_hlp.cpp:339-396 | stack images with base and relocation data survive |
| WireTables.AppcallRoundTrip | android_server6.8-src/jni/rpc_hlp.cpp:356-409 | any application call argument set survives; of the registers to return number and size do, their values arrive as zeros |
| WireTables.MemoryInfoRoundTrip | android_server6.8-src/jni/rpc_hlp.cpp:92-113 | memory areas survive except for how permissions and bitness are packed |
| WireTables.PermWordIff | android_server6.8-src/jni/rpc_hlp.cpp:97-110 | permissions and bitness survive if and only if the overlapping nibbles are equal; the low four permission bits always do |
| WireTables.MemoryInfoSurvivesIff | android_server6.8-src/jni/rpc_hlp.cpp:92-113 | the exact condition for a memory area to be received as sent |
| WireLayouts.DdBytes | android_server6.8-src/jni/rpc_hlp.h:20-23 | the bytes of a double word in each of its four forms |
| WireLayouts.EaBytes | android_server6.8-src/jni/rpc_hlp.h:80-88 | the bytes of an address: plus one, low half first; BADADDR is 00 01 |
| WireLayouts.EventBytes | android_server6.8-src/jni/rpc_hlp.cpp:209-246 | the bytes of an event: identifier, process, thread, address, handled, then the selected member, field by field |
| WireLayouts.BreakpointBytes | android_server6.8-src/jni/rpc_hlp.cpp:209-246 | concrete case: the ten bytes of a breakpoint event |
| WireLayouts.RegValBytes | android_server6.8-src/jni/rpc_hlp.cpp:412-428 | the bytes of a register value: tag 1 and the integer plus one, tag 0 and the number, or the type plus two, the size and the bytes |
| WireLayouts.RegObjBytes | android_server6.8-src/jni/rpc_hlp.cpp:370-384 | the bytes of a register object: index, size and, with values, relocation and value |
| WireLayouts.RelObjBytes | android_server6.8-src/jni/rpc_hlp.cpp:387-396 | the bytes of a stack image: size, image, base, size and relocation data |
| WireLayouts.AppcallBytes | android_server6.8-src/jni/rpc_hlp.cpp:399-409 | the bytes of a call: counted arguments, stack image, counted registers to return if wanted |
| WireLayouts.ExcEntryBytes | android_server6.8-src/jni/rpc_hlp.cpp:273-282 | the bytes of an exception table entry |
| WireLayouts.FrameBytes | android_server6.8-src/jni/rpc_hlp.cpp:301-313 | the bytes of a call stack frame |
| WireLayouts.MemoryInfoBytes | android_server6.8-src/jni/rpc_hlp.cpp:92-100 | the bytes of a memory area |
| RegVals.RegValRoundTrip | android_server6.8-src/jni/rpc_hlp.cpp:412-451 | an integer modulo 2^64, a floating point number, and a custom value whose type becomes 0 |
| RegVals.RegValsRoundTrip | android_server6.8-src/jni/rpc_hlp.cpp:454-472 | with the same bitmap every selected register is restored, the others are left alone, and the end-of-data guard drops none |
| Packets.Packet.AppendModuleInfo | android_server6.8-src/jni/rpc_hlp.cpp:131-137 | appends the module format and nothing else |
| Packets.Packet.AppendException | android_server6.8-src/jni/rpc_hlp.cpp:150-156 | appends the exception format |
| Packets.Packet.AppendDebugEvent | android_server6.8-src/jni/rpc_hlp.cpp:209-246 | appends the event format |
| Packets.Packet.AppendPayload | android_server6.8-src/jni/rpc_hlp.cpp:216-245 | appends the member the identifier selects |
| Packets.Packet.AppendExceptionInfo | android_server6.8-src/jni/rpc_hlp.cpp:273-282 | the loop appends every entry in order |
| Packets.Packet.AppendCallStack | android_server6.8-src/jni/rpc_hlp.cpp:301-313 | count and every frame in order |
| Packets.Packet.AppendRegObjs | android_server6.8-src/jni/rpc_hlp.cpp:370-384 | count and every register object in order |
| Packets.Packet.AppendAppcall | android_server6.8-src/jni/rpc_hlp.cpp:399-409 | arguments, stack image, and return registers if wanted |
| Packets.Packet.AppendRegVals | android_server6.8-src/jni/rpc_hlp.cpp:467-472 | exactly the selected registers, in order |
| Packets.Cursor.ExtractLong | android_server6.8-src/jni/rpc_hlp.h:20-23 | the value and position of the reader's double-word format |
| Packets.Cursor.ExtractStr | android_server6.8-src/jni/rpc_hlp.h:54-63 | scans to the terminator, or fails where the data ends first |
| Packets.Cursor.ExtractMemory | android_server6.8-src/jni/rpc_hlp.h:93-101 | the next bytes, or failure when there are too few |
| Packets.Cursor.ExtractModuleInfo | android_server6.8-src/jni/rpc_hlp.cpp:140-147 | decodes the module format |
| Packets.Cursor.ExtractException | android_server6.8-src/jni/rpc_hlp.cpp:159-166 | decodes the exception format |
| Packets.Cursor.ExtractDebugEvent | android_server6.8-src/jni/rpc_hlp.cpp:169-206 | decodes the event format |
| Packets.Cursor.ExtractExceptionInfo | android_server6.8-src/jni/rpc_hlp.cpp:249-270 | decodes as many entries as asked, in order |
| Packets.Cursor.ExtractCallStack | android_server6.8-src/jni/rpc_hlp.cpp:285-298 | decodes a counted call stack |
| Packets.Cursor.ExtractRegObjs | android_server6.8-src/jni/rpc_hlp.cpp:316-336 | decodes counted register objects, with or without values |
| Packets.Cursor.ExtractAppcall | android_server6.8-src/jni/rpc_hlp.cpp:356-367 | decodes an argument set |
| Packets.Cursor.ExtractRegVals | android_server6.8-src/jni/rpc_hlp.cpp:454-464 | fills the selected registers of the array in place and no others |
| DebugNames.SendDebugNames | android_server6.8-src/jni/rpc_server.cpp:882-941 | the packets carry the names in order without loss and decode on their own, all but the last are full; success exactly when all were sent and acknowledged; the loop ends because every packet carries a name |
| DebugNames.PacketsRoundTrip | android_server6.8-src/jni/rpc_server.cpp:886-936 | the client recovers the whole list from the packets |
| DebugNames.PacketRoundTrip | android_server6.8-src/jni/rpc_server.cpp:896-932 | each packet decodes to the names it carries, independent of the others |
| DebugNames.EntryRoundTrip | android_server6.8-src/jni/rpc_server.cpp:901-921 | a delta with sign and a shared prefix with suffix give address and name back |
| DebugNames.EntryBytes | android_server6.8-src/jni/rpc_server.cpp:901-921 | the bytes of an entry: magnitude of the address difference, its sign, the length of the longest common prefix, the rest of the name |
| DebugNames.FillPacket | android_server6.8-src/jni/rpc_server.cpp:896-929 | a packet takes at least one name and exceeds 1300 bytes by at most its last entry |
| DebugNames.NextPacket | android_server6.8-src/jni/rpc_server.cpp:889-936 | a packet carries the next names in order, at least one, and is full unless it ends the list |
| DebugNames.CommonPrefix | android_server6.8-src/jni/rpc_server.cpp:911-916 | the scan finds the longest common prefix |
| DebugNames.MovedBack | android_server6.8-src/jni/rpc_server.cpp:901-908 | adding the signed delta modulo the word size gives the address back |
| Framing.SessionRoundTrip | android_server6.8-src/jni/rpc_engine.cpp:141-185 | the stream of framed packets is received as the same packets |
| Framing.ParseFrameIff | android_server6.8-src/jni/rpc_engine.cpp:141-185 | a framed packet is parsed back, whatever follows, if and only if its payload is below 2^31 - 5 |
| Framing.FrameBytes | android_server6.8-src/jni/rpc_hlp.cpp:85-89 | the bytes of a packet: the length of its payload, highest byte first, its code, its payload |
| Framing.SwapInvolution | android_server6.8-src/jni/pro.h:1333-1334 | swapping the bytes of a word twice gives the word |
| Framing.Engine.SendAll | android_server6.8-src/jni/rpc_engine.cpp:76-87 | however the stream takes the bytes, a prefix goes out, all of it if no call fails |
| Framing.Engine.SendRequest | android_server6.8-src/jni/rpc_engine.cpp:59-89 | what goes out is the packet with its length in network order; after an earlier error nothing does |
| Framing.Engine.RecvAll | android_server6.8-src/jni/rpc_engine.cpp:94-138 | exactly the asked bytes arrive in the buffer, however they are cut up and interleaved with polling |
| Framing.Engine.RecvRequest | android_server6.8-src/jni/rpc_engine.cpp:141-185 | one packet is taken off the stream, or none on a bad length or a short stream |
| Framing.Engine.ReceiveSession | android_server6.8-src/jni/rpc_engine.cpp:190-235 | a session receives what the parser makes of the stream, however it arrives |
| Polling.EventsPaidFor | android_server6.8-src/jni/rpc_server.cpp:808-830 | for every client and every nesting, RPC_EVENTs sent plus one if polling never exceed the replies without an event |
| Polling.WaitIsCovered | android_server6.8-src/jni/rpc_server.cpp:808-830 | the other half, for a client that asks for no event while one is awaited or held: in every reachable state it waits if and only if exactly one permission exists, to poll or held by one call that has not returned; and every miss has been answered by one event or is the one waited for |
| Polling.NextPollSends | android_server6.8-src/jni/rpc_server.cpp:808-830 | so between two calls the server polls whenever the client waits: a poll that finds nothing leaves the state as it was, one that finds an event sends it |
| Polling.RequestAnswered | android_server6.8-src/jni/rpc_server.cpp:405-423 | what an answered request leaves: an event handed out, or a miss that turns polling on; a continue leaves the event even if it then fails |
| Polling.NeverAskedInEvent | android_server6.8-src/jni/linux_debmod.cpp:953-956 | over every run from the start of a client that asks for no event while one is awaited or held, `dbg_get_debug_event` is never entered with `in_event` set (30059) |
| Polling.EvokNeverHeeded | android_server6.8-src/jni/consts.h:28-36 | in every reachable state, whatever the client did, a GET_DEBUG_EVENT being performed asks the debugger module: the rule that it fails until RPC_EVOK is nowhere enforced |
| Polling.EvokRuleNotEnforced | android_server6.8-src/jni/consts.h:28-36 | concrete run: it does so between an RPC_EVENT and its RPC_EVOK, with `in_event` set |
| Polling.BalancedStep | android_server6.8-src/jni/rpc_server.cpp:323-328 | no step of the server creates a polling permission without a reply that pays for it |
| Polling.OrderlyStep | android_server6.8-src/jni/rpc_server.cpp:405-423 | a disciplined client's steps keep exactly one permission while it waits, none otherwise, and none while an event is handled |
| Polling.RpcServer.StartRequest | android_server6.8-src/jni/rpc_server.cpp:323-328 | polling is off while a request is performed |
| Polling.RpcServer.FinishRequest | android_server6.8-src/jni/rpc_server.cpp:405-423 | the saved polling mode comes back, and a miss turns it on; a continue that fails after leaving the event has cleared `in_event` |
| Polling.RpcServer.StartPoll | android_server6.8-src/jni/rpc_server.cpp:808-814 | polling is off while the debugger module is asked |
| Polling.RpcServer.FinishPoll | android_server6.8-src/jni/rpc_server.cpp:815-829 | an event is sent and the pending flag cleared at once; otherwise polling goes on |
| QList.List.Linkin | android_server6.8-src/jni/pro.h:3003-3010 | the new node is in the ring right before the given one; next and prev stay inverse and length counts the data nodes |
| QList.List.Unlink | android_server6.8-src/jni/pro.h:2969-2975 | the node is out of the ring, which stays well formed |
| QList.List.Insert | android_server6.8-src/jni/pro.h:2938-2944 | contents with the element inserted at the position; returns where it is |
| QList.List.InsertRange | android_server6.8-src/jni/pro.h:2957-2961 | contents with the other list's range inserted in order; the other list is unchanged |
| QList.List.InsertOwnRange | android_server6.8-src/jni/pro.h:2957-2961 | contents with the list's own range inserted, for every position where the loop ends |
| QList.List.Erase | android_server6.8-src/jni/pro.h:2969-2976 | contents without the element at the position |
| QList.List.EraseRange | android_server6.8-src/jni/pro.h:2978-2982 | contents without the range |
| QList.List.Assign | android_server6.8-src/jni/pro.h:2893-2909 | contents equal to the other list's, which is unchanged; assigning a list to itself changes nothing |
| QList.List.CopyCommon | android_server6.8-src/jni/pro.h:2897-2902 | the common part is overwritten element by element, the rings stay |
| QList.List.Clear | android_server6.8-src/jni/pro.h:2984-2984 | an empty ring |
| QList.List.PushBack | android_server6.8-src/jni/pro.h:2965-2965 | the element appended |
| QList.List.PushFront | android_server6.8-src/jni/pro.h:2963-2963 | the element put in front |
| QList.List.PopFront | android_server6.8-src/jni/pro.h:2986-2986 | all but the first element |
| QList.List.PopBack | android_server6.8-src/jni/pro.h:2988-2988 | all but the last element |
| QList.LinkForward | android_server6.8-src/jni/pro.h:3003-3010 | linking a node in changes one next link and keeps the circle |
| QList.LinkBackward | android_server6.8-src/jni/pro.h:3003-3010 | and one prev link |
| QList.UnlinkForward | android_server6.8-src/jni/pro.h:2969-2975 | taking a node out changes one next link and keeps the circle |
| QList.UnlinkBackward | android_server6.8-src/jni/pro.h:2969-2975 | and one prev link |
| Appcalls.CallCleanedUp | android_server6.8-src/jni/debmod.cpp:792-815 | whatever happens between a call and its cleanup on this and other threads - calls that end in any way, cleanups that fail and are tried again - as long as its own context is not taken off: the cleanup takes off exactly that context and restores the registers from before the call with TF cleared if the call changed any; the same for a call that ends with an error |
| Appcalls.RunAbove | android_server6.8-src/jni/debmod.cpp:463-815 | no run touches a context it does not come down to, except for TF in saved registers |
| Appcalls.ThreadsApart | android_server6.8-src/jni/debmod.cpp:463-815 | contexts and registers of a thread after a run are those after its own steps alone |
| Appcalls.ContextGoneIff | android_server6.8-src/jni/debmod.cpp:777-785 | a call's context is gone when it returns if and only if it failed and the registers, if changed, could be restored; after PROCESS_EXIT it stays although the caller is told of failure |
| Appcalls.BegunRegs | android_server6.8-src/jni/debmod.cpp:606-619 | the registers after the setup of a call: each has the last value written to it before the setup stopped, or is as it was |
| Appcalls.AppcallTable.Begin | android_server6.8-src/jni/debmod.cpp:463-629 | a context is pushed with the registers as they were; it counts as spoiled exactly when one was written |
| Appcalls.AppcallTable.WriteRegisters | android_server6.8-src/jni/debmod.cpp:606-619 | registers are changed in order up to the first failure |
| Appcalls.AppcallTable.CleanupAppcall | android_server6.8-src/jni/debmod.cpp:792-815 | nothing on an empty stack; a failed restoration keeps the context; otherwise registers restored and context popped |
| Appcalls.AppcallTable.End | android_server6.8-src/jni/debmod.cpp:777-785 | errors clean up and answer BADADDR; process exit answers BADADDR without cleaning up |
| Appcalls.Untraced | android_server6.8-src/jni/pc_debmod.cpp:287-298 | on x86 bit 8 of the saved flags is cleared, every other bit and register stays; elsewhere nothing changes |
| AppcallFrame.UnderflowExact | android_server6.8-src/jni/debmod.cpp:491-545 | modulo the word size, for 4- and 8-byte addresses: the underflow test rejects exactly the frames that wrap; one that passes lies below the old stack top with its arguments 16-byte aligned |
| AppcallFrame.LayDistances | android_server6.8-src/jni/debmod.cpp:511-519 | the addresses of the frame as distances below the stack top, wrapped or not |
| AppcallFrame.SetupStack | android_server6.8-src/jni/debmod.cpp:491-562 | nothing at or above the old stack top is written, successful or not; on x86 the return word holds the control address and code lies there, on ARM LR does; the arguments are in place |
| AppcallFrame.ComputeLayout | android_server6.8-src/jni/debmod.cpp:511-539 | for fewer than 2^31 bytes of arguments: where each address lies below the stack top, that the size is rounded up to whole words and the arguments are 16-byte aligned, and when the frame underflows |
| PageBpts.FindPageBpt | android_server6.8-src/jni/debmod.cpp:1106-1122 | for page-aligned, disjoint entries and any range: what is found meets the range; nothing is found if and only if no entry meets it, or the range reaches the end of the address space, or an entry that does is the first from its page on; a range that wraps around finds exactly an entry that meets both its ends |
| PageBpts.OverlapWrapped | android_server6.8-src/jni/pro.h:1176-1179 | for a range that wraps around the overlap test asks for overlap with both parts |
| PageBpts.OverlapIff | android_server6.8-src/jni/pro.h:1176-1179 | the overlap test agrees with overlap of the real ranges except exactly for ranges that reach the end of the address space |
| PageBpts.LastPageMissed | android_server6.8-src/jni/pro.h:1176-1179 | for instance a breakpoint on the last page is missed at every address in it |
| DllExtents.MergedIff | android_server6.8-src/jni/linux_debmod.cpp:2774-2792 | the merged areas are the extents of the modules mapped: one for each name, from the least to the greatest address of its areas, in the order of their first areas |
| DllExtents.ExtentIff | android_server6.8-src/jni/linux_debmod.cpp:2785-2786 | for areas that do not end before they start: the extent goes from the least start to the greatest end of the raw areas of that name |
| DllExtents.HandledIff | android_server6.8-src/jni/linux_debmod.cpp:2821-2852 | over the raw map: the table afterwards holds the entries whose module is mapped, unchanged, and one for every module that has a name, is not the program itself, and whose least address holds an ELF header and is not taken; with that base, the extent as size, and its name |
| DllExtents.AnnouncementsIff | android_server6.8-src/jni/linux_debmod.cpp:1443-1463 | over the raw map: in front of the queue there is one LIBRARY_LOAD for every module registered, with its base, extent as size, name, and the rebase address if it is the input file |
| DllExtents.UnloadingCounts | android_server6.8-src/jni/linux_debmod.cpp:2796-2819 | of a module that is gone as many queued LOADs are taken back as it has entries, and an UNLOAD is queued only for the entries left over; other events stay in order |
| DllExtents.UnloadEvents | android_server6.8-src/jni/linux_debmod.cpp:2802-2812 | whatever unloading queues is the LIBRARY_UNLOAD of an entry whose module is not mapped |
| DllMovements.HandledAgrees | android_server6.8-src/jni/linux_debmod.cpp:2770-2855 | afterwards every table entry's module is mapped and every eligible ELF image is registered |
| DllMovements.HandledTwice | android_server6.8-src/jni/linux_debmod.cpp:2770-2855 | handling the same map again changes nothing and enqueues nothing |
| DllMovements.Conservation | android_server6.8-src/jni/linux_debmod.cpp:2794-2852 | for every module the queued LOADs less the queued UNLOADs change by exactly the change in its table entries |
| DllMovements.MergeCovers | android_server6.8-src/jni/linux_debmod.cpp:2774-2792 | merging leaves one area for each module name, covering all areas of that name |
| DllMovements.MergeNames | android_server6.8-src/jni/linux_debmod.cpp:2774-2792 | merging makes up no module names |
| DllModule.DllTable.Merge | android_server6.8-src/jni/linux_debmod.cpp:2774-2792 | areas merged by module name in order of first appearance |
| DllModule.DllTable.Unload | android_server6.8-src/jni/linux_debmod.cpp:2796-2819 | an entry whose module is gone: its queued LOAD is cancelled, or an UNLOAD is queued in front |
| DllModule.DllTable.UnloadMissing | android_server6.8-src/jni/linux_debmod.cpp:2794-2819 | every entry is examined once, in address order |
| DllModule.DllTable.CalcModuleSize | android_server6.8-src/jni/linux_debmod.cpp:2751-2767 | the extent of consecutive areas of the module, 0 if unknown |
| DllModule.DllTable.AddNew | android_server6.8-src/jni/linux_debmod.cpp:1443-1463 | LOAD queued in front, image registered and noted for import |
| DllModule.DllTable.LoadNew | android_server6.8-src/jni/linux_debmod.cpp:2821-2852 | every eligible area at an unregistered base is registered |
| DllModule.DllTable.HandleDllMovements | android_server6.8-src/jni/linux_debmod.cpp:2770-2855 | merge, unload, load in that order |
| HwBpts.RunFaithful | android_server6.8-src/jni/pc_debmod.cpp:95-133 | over every run of additions, deletions and cleanups DR7 is exactly what the slots encode |
| HwBpts.FieldsOfSlot | android_server6.8-src/jni/pc_debmod.cpp:110-128 | an empty slot has no bit set; another has its local enable bit and its type and length nibble |
| HwBpts.AddedBits | android_server6.8-src/jni/pc_debmod.cpp:95-117 | an addition shows in DR7 as the enabled slot that was empty, with the type and length bits of the processor |
| HwBpts.DeletedIff | android_server6.8-src/jni/pc_debmod.cpp:120-133 | a deletion empties exactly the first slot with that address and type, in the slots and in DR7 |
| HwBpts.TypeSeenIff | android_server6.8-src/jni/pc_debmod.cpp:101-112 | the processor sees the asked type and length, except for BPT_SOFT, whose code spills into the length |
| HwBpts.ExactKept | android_server6.8-src/jni/pc_debmod.cpp:218-219 | bit 8 is never lost |
| HwBpts.AddFaithfulIff | android_server6.8-src/jni/pc_debmod.cpp:95-117 | an addition that gets a slot keeps DR7 faithful if and only if the address is not BADADDR |
| HwBpts.RefusedIff | android_server6.8-src/jni/pc_debmod.cpp:82-92 | an addition is refused if and only if the same breakpoint precedes every empty slot |
| HwBpts.UniqueKeptIff | android_server6.8-src/jni/pc_debmod.cpp:82-92 | an addition keeps breakpoints unique if and only if it is refused or no slot behind the empty one it takes holds the same breakpoint |
| HwBpts.UniqueDeleted | android_server6.8-src/jni/pc_debmod.cpp:120-133 | a deletion keeps them unique |
| HwBpts.Doubled | android_server6.8-src/jni/pc_debmod.cpp:82-92 | concrete run after which two slots hold the same breakpoint |
| HwBpts.HandledAfterRefresh | android_server6.8-src/jni/linux_debmod.cpp:588-611 | after a refresh a trap is attributed to the first slot in use whose status bit is set, never to an empty one, and to none exactly if there is none |
| HwBpts.PcDebmod.Cleanup | android_server6.8-src/jni/pc_debmod.cpp:211-220 | all slots empty, DR7 with bit 8 alone |
| HwBpts.PcDebmod.FindHwbptSlot | android_server6.8-src/jni/pc_debmod.cpp:82-92 | the first empty slot unless the same breakpoint comes before it |
| HwBpts.PcDebmod.AddHwbpt | android_server6.8-src/jni/pc_debmod.cpp:95-117 | slot, type and DR7 bits set together, or nothing; true if the threads then took the registers, false without undoing anything if not |
| HwBpts.PcDebmod.DelHwbpt | android_server6.8-src/jni/pc_debmod.cpp:120-133 | the first matching slot emptied and its bits cleared, or nothing; true if the threads then took the registers |
| HwBpts.PcDebmod.HandleHwbpt | android_server6.8-src/jni/linux_debmod.cpp:588-611 | the first reported slot whose address the thread still has |

## Left out

- DbgAddBpt: what a debug register makes of a software breakpoint that could not be written is an answer of the environment here; the registers themselves are in HwBpts. The same holds for deletions.
- DbgDelBpt: see DbgAddBpt.
- AddBatch: is about a debugger that does not continue from breakpoints by itself; otherwise zeros are reported instead of the original bytes. AddOne and UpdateBpts cover both.
- StorePendingSignal: the tables of the other sessions, which the source searches for an unknown thread, are not modelled; there is one debugger module.
- HandleExit: after `dead_thread` has deleted the thread of an event, the source still clears `single_step` through the pointer to its record (at EVENT_READY); in the model there is no record left, so that write is left out. The same holds for GetDebugEvent.
- GetDebugEvent: see HandleExit.
- CloneAnnouncedIff: the address in THREAD_START is read from the registers of the new thread, which are not modelled; BADADDR stands for it. The same holds for HandleExtendedWait and SideStepOutcome.
- StartOutcome: the address and the module description in PROCESS_START and PROCESS_ATTACH come from registers and from /proc; BADADDR and no description stand for them.
- DetachOutcome: whether detaching the threads succeeds is an answer of the kernel; for the cleanup before it see NoResumeBeforeContinue.
- EventIff: which breakpoint a trap belongs to, and what the messages of libraries and threads bring, are answers of the environment (HwBpts and DllExtents are about them). Exception texts are left out.
- ExitReport: of a thread killed by a signal the event's address is that of the fault, an answer of the kernel.
- TerminateOutcome: closing files and dropping library and symbol tables is left out.
- Begin: how far the setup of a call gets is a parameter; the steps before the register writes are SetupStack.
- SetupStack: the arguments are given relocated; a failing relocation ends the call before anything is written.
- SettleThread: clearing the trace flag of the processor after a handled SIGTRAP is left out, as are all other register writes of the thread machine.
- NoResumeBeforeContinue: `dbg_detach_process` first runs `cleanup_signals` and `cleanup_breakpoints`; the former restarts threads that await a SIGSTOP by itself, also when the detach then fails. Both are left out.
- UpdateBpts: a deletion entry for a debug register that carries original bytes has its size as their number; the program reads that many, so there must be as many.
- BatchUndoIff: entries for debug registers carry no original bytes, which their deletion would write to memory.
- ReceiveSession: what the server does and sends between two packets is not part of it.
- EventsPaidFor: requests other than a continue that clear `in_event` leave it set in the protocol model, so the model asks more of a client than the program does.
- WriteMemory: `debug_debugger` is off; with it on, the function overwrites its own input with a trace message.
- ReadMemory: the memory file under /proc is not read, as on Android.
- ModuleRoundTrip: names of MAXSTR bytes and more are cut and lose their terminator; what reading such a field gives is not modelled. The same holds for exception texts and library names.
- HandleDllMovements: library names are kept whole in the events, so names are taken to be shorter than MAXSTR; reading the ELF header and the module's own name is an answer of the environment; assertion 30068 on empty areas is not modelled.
- EventRoundTrip: the members of the union that the identifier does not select are not part of an event.
- AssertionsExcused: the kernel's contract is that a stopped thread reports no stop until it is resumed, that continuations are not reported, that a new thread is not its own parent and stays stopped from a stop seen before its parent's clone, that a freeze gets its SIGSTOPs and a started or attached process its first stop. Assertion 30181 is not modelled.
- NeverAskedInEvent: application calls ask for events by themselves and are not part of the protocol model.
- CallCleanedUp: the effect of a call's control breakpoint on memory is not modelled; deleting it writes the breakpoint code itself, not the bytes it replaced. References into a context stack that a nested call moves are not modelled.
- InsertOwnRange: a position after the first and not behind the last element of the range is excluded, because the loop does not end there. Freed nodes are not modelled.
- Low-level breakpoint conditions: disabled in this build, `handling_lowcnds` stays empty.
- Packing a single byte (`append_db`) does nothing in this program, so the replies that use it are not modelled.
- Process descriptions and attribute packets: a number and a string each.
- Sockets, signals, command line, thread_db, /proc parsing, ELF symbols: their results are arguments.
- Register access through the user area, exception names, event texts: copying and formatting only.
- ARM single stepping and the xScale registers: they depend on an instruction decoder.
- `qlist::swap` and `set_all_bits`: nothing modelled here uses them.
