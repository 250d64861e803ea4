/** The event record exchanged between the debugger module, the RPC layer and
    the client, with the identifiers and the 32-bit quantities it is made of. */
module DebugEvents {

  datatype Option<+T> = None | Some(value: T)

  const TWO_32: int := 0x1_0000_0000

  // 32-bit unsigned quantities: addresses, sizes, event and exception codes.
  type word = x: int | 0 <= x < TWO_32
  type byte = x: int | 0 <= x < 256

  // Process and thread ids: C ints.
  type Tid = int

  const BADADDR: word := 0xFFFF_FFFF
  const NO_THREAD: Tid := 0

  // Event identifiers; other values are possible on the wire.
  const NO_EVENT: word := 0x0000
  const PROCESS_START: word := 0x0001
  const PROCESS_EXIT: word := 0x0002
  const THREAD_START: word := 0x0004
  const THREAD_EXIT: word := 0x0008
  const BREAKPOINT: word := 0x0010
  const STEP: word := 0x0020
  const EXCEPTION: word := 0x0040
  const LIBRARY_LOAD: word := 0x0080
  const LIBRARY_UNLOAD: word := 0x0100
  const INFORMATION: word := 0x0200
  const PROCESS_ATTACH: word := 0x1000
  const PROCESS_DETACH: word := 0x2000
  const PROCESS_SUSPEND: word := 0x4000

  // A C string without its terminator.
  type Text = s: seq<byte> | forall i :: 0 <= i < |s| ==> s[i] != 0 witness []

  datatype ModuleInfo = ModuleInfo(name: Text, base: word, size: word, rebaseTo: word)
  datatype ExceptionInfo = ExceptionInfo(code: word, canCont: bool, ea: word, info: Text)

  // The union of the event record; the event identifier selects the member.
  datatype Payload =
    | NoPayload
    | Module(modinfo: ModuleInfo)
    | ExitCode(exitCode: word)
    | Bpt(hea: word, kea: word)
    | Exc(exc: ExceptionInfo)
    | Info(info: Text)

  datatype Event = Event(eid: word, pid: Tid, tid: Tid, ea: word, handled: bool, payload: Payload)

  datatype QueuePos = InFront | InBack

  /** eventlist_t::enqueue */
  function Enqueued(events: seq<Event>, ev: Event, pos: QueuePos): seq<Event> {
    if pos.InFront? then [ev] + events else events + [ev]
  }
}
