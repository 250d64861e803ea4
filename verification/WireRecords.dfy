/** The records of the protocol: module, breakpoint, exception and event descriptions,
    exception tables, call stacks, application call arguments, memory and process
    descriptions.  Each is a sequence of numbers, addresses, strings and raw bytes. */
module WireRecords {
  import opened DebugEvents
  import opened Wire

  // C ints travel as double words.
  predicate IsInt(t: int) { -0x8000_0000 <= t < 0x8000_0000 }

  function Unsigned(t: int): word { t % TWO_32 }

  function Signed(x: word): int { if x < 0x8000_0000 then x else x - TWO_32 }

  function FlagWord(b: bool): word { if b then 1 else 0 }

  // A number or an address that must be what was appended, for lemmas about records.
  lemma DdRead(rd: Reader, data: seq<byte>, pos: nat, x: word, rest: seq<byte>)
    requires At(data, pos, PackDd(x) + rest) && FitsDd(rd, x)
    ensures UnpackDd(rd, data, pos) == (x, pos + |PackDd(x)|) && At(data, pos + |PackDd(x)|, rest)
  {
    AtSplit(data, pos, PackDd(x), rest);
    DdRoundTripIff(rd, data, pos, x);
  }

  lemma EaRead(rd: Reader, data: seq<byte>, pos: nat, ea: word, rest: seq<byte>)
    requires At(data, pos, PackEa(ea) + rest) && FitsEa(rd, ea)
    ensures UnpackEa(rd, data, pos) == (ea, pos + |PackEa(ea)|) && At(data, pos + |PackEa(ea)|, rest)
  {
    AtSplit(data, pos, PackEa(ea), rest);
    EaRoundTripIff(rd, data, pos, ea);
  }

  lemma StrRead(data: seq<byte>, pos: nat, t: Text, rest: seq<byte>)
    requires At(data, pos, PackStr(t) + rest)
    ensures UnpackStr(data, pos) == Got(t, pos + |PackStr(t)|) && At(data, pos + |PackStr(t)|, rest)
  {
    AtSplit(data, pos, PackStr(t), rest);
    StrRoundTrip(data, pos, t);
  }

  lemma MemoryRead(data: seq<byte>, pos: nat, bytes: seq<byte>, rest: seq<byte>)
    requires At(data, pos, bytes + rest)
    ensures UnpackMemory(data, pos, |bytes|) == Got(bytes, pos + |bytes|) && At(data, pos + |bytes|, rest)
  {
    AtSplit(data, pos, bytes, rest);
  }

  // ---------------------------------------------------------------- lists of items

  function EncAll<T>(enc: T -> seq<byte>, xs: seq<T>): seq<byte>
    decreases |xs|
  {
    if xs == [] then [] else enc(xs[0]) + EncAll(enc, xs[1..])
  }

  function DecAll<T>(dec: nat -> Parsed<T>, pos: nat, n: nat): Parsed<seq<T>>
    decreases n
  {
    if n == 0 then Got([], pos)
    else
      var (x, p) :- dec(pos);
      var (xs, p') :- DecAll(dec, p, n - 1);
      Got([x] + xs, p')
  }

  // Is x extracted as y wherever it was appended?
  ghost predicate ReadAs<T(!new)>(enc: T -> seq<byte>, dec: nat -> Parsed<T>, data: seq<byte>, x: T, y: T) {
    forall p: nat :: At(data, p, enc(x)) ==> dec(p) == Got(y, p + |enc(x)|)
  }

  /** A list is extracted item by item as it was appended: ys is what the items of xs come
      out as. */
  lemma {:induction false} ListRoundTrip<T(!new)>(enc: T -> seq<byte>, dec: nat -> Parsed<T>,
                                                  data: seq<byte>, pos: nat, xs: seq<T>, ys: seq<T>)
    requires At(data, pos, EncAll(enc, xs)) && |ys| == |xs|
    requires forall i :: 0 <= i < |xs| ==> ReadAs(enc, dec, data, xs[i], ys[i])
    ensures DecAll(dec, pos, |xs|) == Got(ys, pos + |EncAll(enc, xs)|)
    decreases |xs|
  {
    hide At;
    if xs != [] {
      var first, rest := enc(xs[0]), EncAll(enc, xs[1..]);
      AtSplit(data, pos, first, rest);
      assert ReadAs(enc, dec, data, xs[0], ys[0]);
      assert dec(pos) == Got(ys[0], pos + |first|);
      ListRoundTrip(enc, dec, data, pos + |first|, xs[1..], ys[1..]);
      assert [ys[0]] + ys[1..] == ys;
    }
  }

  // ---------------------------------------------------------------- modules, breakpoints, exceptions

  function EncModule(m: ModuleInfo): seq<byte> {
    PackStr(m.name) + (PackEa(m.base) + (PackEa(m.size) + (PackEa(m.rebaseTo) + [])))
  }

  function DecModule(rd: Reader, data: seq<byte>, pos: nat): Parsed<ModuleInfo> {
    var (name, p0) :- UnpackStr(data, pos);
    var (base, p1) := UnpackEa(rd, data, p0);
    var (size, p2) := UnpackEa(rd, data, p1);
    var (rebaseTo, p3) := UnpackEa(rd, data, p2);
    Got(ModuleInfo(Cut(name), base, size, rebaseTo), p3)
  }

  predicate FitsModule(rd: Reader, m: ModuleInfo) {
    |m.name| < MAXSTR && FitsEa(rd, m.base) && FitsEa(rd, m.size) && FitsEa(rd, m.rebaseTo)
  }

  lemma ModuleRoundTrip(rd: Reader, data: seq<byte>, pos: nat, m: ModuleInfo)
    requires At(data, pos, EncModule(m)) && FitsModule(rd, m)
    ensures DecModule(rd, data, pos) == Got(m, pos + |EncModule(m)|)
  {
    hide At;
    hide UnpackEa;
    hide PackEa;
    hide FitsEa;
    var r3 := PackEa(m.rebaseTo) + [];
    var r2 := PackEa(m.size) + r3;
    var r1 := PackEa(m.base) + r2;
    StrRead(data, pos, m.name, r1);
    var p0 := pos + |PackStr(m.name)|;
    EaRead(rd, data, p0, m.base, r2);
    var p1 := p0 + |PackEa(m.base)|;
    EaRead(rd, data, p1, m.size, r3);
    EaRead(rd, data, p1 + |PackEa(m.size)|, m.rebaseTo, []);
  }

  function EncException(e: ExceptionInfo): seq<byte> {
    PackDd(e.code) + (PackDd(FlagWord(e.canCont)) + (PackEa(e.ea) + (PackStr(e.info) + [])))
  }

  function DecException(rd: Reader, data: seq<byte>, pos: nat): Parsed<ExceptionInfo> {
    var (code, p0) := UnpackDd(rd, data, pos);
    var (canCont, p1) := UnpackDd(rd, data, p0);
    var (ea, p2) := UnpackEa(rd, data, p1);
    var (info, p3) :- UnpackStr(data, p2);
    Got(ExceptionInfo(code, canCont != 0, ea, Cut(info)), p3)
  }

  predicate FitsException(rd: Reader, e: ExceptionInfo) {
    FitsDd(rd, e.code) && FitsEa(rd, e.ea) && |e.info| < MAXSTR
  }

  lemma ExceptionRoundTrip(rd: Reader, data: seq<byte>, pos: nat, e: ExceptionInfo)
    requires At(data, pos, EncException(e)) && FitsException(rd, e)
    ensures DecException(rd, data, pos) == Got(e, pos + |EncException(e)|)
  {
    hide At;
    hide UnpackDd;
    hide PackDd;
    hide UnpackEa;
    hide PackEa;
    hide FitsDd;
    hide FitsEa;
    hide PackStr;
    hide UnpackStr;
    var r3 := PackStr(e.info) + [];
    var r2 := PackEa(e.ea) + r3;
    var r1 := PackDd(FlagWord(e.canCont)) + r2;
    FlagFits(rd, e.canCont);
    DdRead(rd, data, pos, e.code, r1);
    var p0 := pos + |PackDd(e.code)|;
    DdRead(rd, data, p0, FlagWord(e.canCont), r2);
    var p1 := p0 + |PackDd(FlagWord(e.canCont))|;
    EaRead(rd, data, p1, e.ea, r3);
    StrRead(data, p1 + |PackEa(e.ea)|, e.info, []);
  }

  // ---------------------------------------------------------------- events

  datatype Member = NoMember | ModuleMember | CodeMember | BptMember | ExcMember | InfoMember

  // Which member of the union an event identifier selects.
  function Selected(eid: word): Member {
    if eid == PROCESS_START || eid == PROCESS_ATTACH || eid == LIBRARY_LOAD then ModuleMember
    else if eid == PROCESS_EXIT || eid == THREAD_EXIT then CodeMember
    else if eid == BREAKPOINT then BptMember
    else if eid == EXCEPTION then ExcMember
    else if eid == LIBRARY_UNLOAD || eid == INFORMATION then InfoMember
    else NoMember
  }

  predicate Selects(eid: word, p: Payload) {
    match Selected(eid)
    case NoMember => p.NoPayload?
    case ModuleMember => p.Module?
    case CodeMember => p.ExitCode?
    case BptMember => p.Bpt?
    case ExcMember => p.Exc?
    case InfoMember => p.Info?
  }

  function EncPayload(p: Payload): seq<byte> {
    match p
    case NoPayload => []
    case Module(m) => EncModule(m)
    case ExitCode(code) => PackDd(code) + []
    case Bpt(hea, kea) => PackEa(hea) + (PackEa(kea) + [])
    case Exc(e) => EncException(e)
    case Info(info) => PackStr(info) + []
  }

  function DecPayload(rd: Reader, eid: word, data: seq<byte>, pos: nat): Parsed<Payload> {
    match Selected(eid)
    case NoMember => Got(NoPayload, pos)
    case ModuleMember => (var (m, p) :- DecModule(rd, data, pos); Got(Module(m), p))
    case CodeMember => (var (code, p) := UnpackDd(rd, data, pos); Got(ExitCode(code), p))
    case BptMember =>
      (var (hea, p) := UnpackEa(rd, data, pos);
       var (kea, p') := UnpackEa(rd, data, p);
       Got(Bpt(hea, kea), p'))
    case ExcMember => (var (e, p) :- DecException(rd, data, pos); Got(Exc(e), p))
    case InfoMember => (var (t, p) :- UnpackStr(data, pos); Got(Info(Cut(t)), p))
  }

  predicate FitsPayload(rd: Reader, p: Payload) {
    match p
    case NoPayload => true
    case Module(m) => FitsModule(rd, m)
    case ExitCode(code) => FitsDd(rd, code)
    case Bpt(hea, kea) => FitsEa(rd, hea) && FitsEa(rd, kea)
    case Exc(e) => FitsException(rd, e)
    case Info(info) => |info| < MAXSTR
  }

  lemma PayloadRoundTrip(rd: Reader, eid: word, data: seq<byte>, pos: nat, p: Payload)
    requires Selects(eid, p) && At(data, pos, EncPayload(p)) && FitsPayload(rd, p)
    ensures DecPayload(rd, eid, data, pos) == Got(p, pos + |EncPayload(p)|)
  {
    hide At;
    hide DecModule;
    hide EncModule;
    hide DecException;
    hide EncException;
    hide UnpackDd;
    hide PackDd;
    hide UnpackEa;
    hide PackEa;
    hide FitsEa;
    match p
    case NoPayload =>
    case Module(m) => ModuleRoundTrip(rd, data, pos, m);
    case ExitCode(code) => DdRead(rd, data, pos, code, []);
    case Bpt(hea, kea) =>
      EaRead(rd, data, pos, hea, PackEa(kea) + []);
      EaRead(rd, data, pos + |PackEa(hea)|, kea, []);
    case Exc(e) => ExceptionRoundTrip(rd, data, pos, e);
    case Info(info) => StrRead(data, pos, info, []);
  }

  function EncEvent(ev: Event): seq<byte> {
    PackDd(ev.eid) + (PackDd(Unsigned(ev.pid)) + (PackDd(Unsigned(ev.tid)) + (PackEa(ev.ea)
    + (PackDd(FlagWord(ev.handled)) + EncPayload(ev.payload)))))
  }

  function DecEvent(rd: Reader, data: seq<byte>, pos: nat): Parsed<Event> {
    var (eid, p0) := UnpackDd(rd, data, pos);
    var (pid, p1) := UnpackDd(rd, data, p0);
    var (tid, p2) := UnpackDd(rd, data, p1);
    var (ea, p3) := UnpackEa(rd, data, p2);
    var (handled, p4) := UnpackDd(rd, data, p3);
    var (payload, p5) :- DecPayload(rd, eid, data, p4);
    Got(Event(eid, Signed(pid), Signed(tid), ea, handled != 0, payload), p5)
  }

  predicate FitsEvent(rd: Reader, ev: Event) {
    && FitsDd(rd, ev.eid)
    && IsInt(ev.pid) && FitsDd(rd, Unsigned(ev.pid))
    && IsInt(ev.tid) && FitsDd(rd, Unsigned(ev.tid))
    && FitsEa(rd, ev.ea)
    && FitsPayload(rd, ev.payload)
  }

  /** Events of every identifier survive the trip, and exactly their bytes are consumed. */
  lemma EventRoundTrip(rd: Reader, data: seq<byte>, pos: nat, ev: Event)
    requires At(data, pos, EncEvent(ev)) && Selects(ev.eid, ev.payload) && FitsEvent(rd, ev)
    ensures DecEvent(rd, data, pos) == Got(ev, pos + |EncEvent(ev)|)
  {
    hide At;
    hide UnpackDd;
    hide PackDd;
    hide UnpackEa;
    hide PackEa;
    hide FitsEa;
    hide FitsDd;
    hide FitsPayload;
    hide EncPayload;
    hide DecPayload;
    var r4 := EncPayload(ev.payload);
    var r3 := PackDd(FlagWord(ev.handled)) + r4;
    var r2 := PackEa(ev.ea) + r3;
    var r1 := PackDd(Unsigned(ev.tid)) + r2;
    var r0 := PackDd(Unsigned(ev.pid)) + r1;
    FlagFits(rd, ev.handled);
    DdRead(rd, data, pos, ev.eid, r0);
    var p0 := pos + |PackDd(ev.eid)|;
    DdRead(rd, data, p0, Unsigned(ev.pid), r1);
    var p1 := p0 + |PackDd(Unsigned(ev.pid))|;
    DdRead(rd, data, p1, Unsigned(ev.tid), r2);
    var p2 := p1 + |PackDd(Unsigned(ev.tid))|;
    EaRead(rd, data, p2, ev.ea, r3);
    var p3 := p2 + |PackEa(ev.ea)|;
    DdRead(rd, data, p3, FlagWord(ev.handled), r4);
    PayloadRoundTrip(rd, ev.eid, data, p3 + |PackDd(FlagWord(ev.handled))|, ev.payload);
  }

  lemma FlagFits(rd: Reader, b: bool)
    ensures FitsDd(rd, FlagWord(b))
  {
  }

  /** For the client nothing but the C types and the string lengths matters. */
  lemma ClientReadsEvents(ev: Event)
    ensures FitsEvent(Client, ev) <==> (IsInt(ev.pid) && IsInt(ev.tid)
              && (ev.payload.Module? ==> |ev.payload.modinfo.name| < MAXSTR)
              && (ev.payload.Exc? ==> |ev.payload.exc.info| < MAXSTR)
              && (ev.payload.Info? ==> |ev.payload.info| < MAXSTR))
  {
  }
}
