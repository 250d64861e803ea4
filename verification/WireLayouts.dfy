/** The bytes of every record, written out as they are appended: which fields, in which order,
    and with which tags.  What is extracted is known from the round trips. */
module WireLayouts {
  import opened DebugEvents
  import opened Wire
  import opened WireRecords
  import opened WireTables
  import opened RegVals

  // ---------------------------------------------------------------- numbers

  lemma HighIs(x: word)
    ensures High(x, 0) == x && High(x, 1) == x / 0x100 && High(x, 2) == x / 0x1_0000 && High(x, 3) == x / 0x100_0000
  {
    assert High(x, 2) == High(x, 1) / 256;
    assert High(x, 3) == High(x, 2) / 256;
  }

  lemma BigEndianOf(x: word)
    ensures BigEndian(x, 1) == [High(x, 0) % 0x100]
    ensures BigEndian(x, 3) == [High(x, 2) % 0x100, High(x, 1) % 0x100, High(x, 0) % 0x100]
    ensures BigEndian(x, 4) == [High(x, 3) % 0x100, High(x, 2) % 0x100, High(x, 1) % 0x100, High(x, 0) % 0x100]
  {
    hide High;
    assert BigEndian(x, 0) == [];
    assert BigEndian(x, 1) == [High(x, 0) % 0x100] + BigEndian(x, 0);
    assert BigEndian(x, 2) == [High(x, 1) % 0x100] + BigEndian(x, 1);
    assert BigEndian(x, 3) == [High(x, 2) % 0x100] + BigEndian(x, 2);
    assert BigEndian(x, 4) == [High(x, 3) % 0x100] + BigEndian(x, 3);
  }

  /** The four forms of a double word. */
  lemma DdBytes(x: word)
    ensures PackDd(x) ==
            if x <= 0x7F then [x]
            else if x <= 0x3FFF then [0x80 + x / 0x100, x % 0x100]
            else if x <= 0x1FFF_FFFF then [0xC0 + x / 0x100_0000, x / 0x1_0000 % 0x100, x / 0x100 % 0x100, x % 0x100]
            else [0xFF, x / 0x100_0000, x / 0x1_0000 % 0x100, x / 0x100 % 0x100, x % 0x100]
  {
    hide BigEndian;
    hide High;
    HighIs(x);
    BigEndianOf(x);
  }

  /** An address is sent plus one, the low half first. */
  lemma EaBytes(ea: word)
    ensures PackEa(ea) == if ea == BADADDR then [0x00, 0x01] else PackDd(ea + 1) + [0x00]
  {
    EaHalves(ea);
  }

  /** An integer register is sent plus one modulo 2^64, the low half first. */
  lemma DqBytes(x: quad)
    ensures PackDq(x) == PackDd(x % TWO_32) + PackDd(x / TWO_32)
  {
  }

  // ---------------------------------------------------------------- records

  lemma FlagBytes(b: bool)
    ensures PackDd(FlagWord(b)) == [if b then 0x01 else 0x00]
  {
  }

  /** A register value: the tag is 1 for an integer, 0 for a floating point number, and two
      more than the type for any other, whose bytes follow their number. */
  lemma RegValBytes(v: RegVal)
    requires Proper(v)
    ensures EncRegVal(v) ==
            match v
            case IntVal(x) => [0x01] + PackDd((x + 1) % TWO_64 % TWO_32) + PackDd((x + 1) % TWO_64 / TWO_32)
            case FloatVal(f) => [0x00] + f
            case CustomVal(t, b) => PackDd(t + 2) + PackDd(|b|) + b
  {
    match v
    case IntVal(x) => IntBytes(x);
    case FloatVal(f) =>
    case CustomVal(t, b) => CustomBytes(t, b);
  }

  lemma IntBytes(x: quad)
    ensures PackDd(RVT_INT) + (PackDq(Up(x)) + [])
            == [0x01] + PackDd((x + 1) % TWO_64 % TWO_32) + PackDd((x + 1) % TWO_64 / TWO_32)
  {
    hide PackDd;
    assert PackDd(1) == [0x01] by { DdBytes(1); }
    assert Up(x) == (x + 1) % TWO_64;
  }

  lemma CustomBytes(t: nat, b: seq<byte>)
    requires t < 0x8000_0000 && |b| < MAX_COUNT
    ensures PackDd(t + 2) + (EncBlock(b) + []) == PackDd(t + 2) + PackDd(|b|) + b
  {
    hide PackDd;
    assert b + [] == b;
  }

  /** An event: identifier, process, thread, address, whether it was handled, and then the
      member of the union that the identifier selects. */
  lemma EventBytes(ev: Event)
    ensures EncEvent(ev) ==
            PackDd(ev.eid) + PackDd(ev.pid % TWO_32) + PackDd(ev.tid % TWO_32) + PackEa(ev.ea)
            + [if ev.handled then 0x01 else 0x00]
            + match ev.payload
              case NoPayload => []
              case Module(m) => (m.name + [0x00]) + PackEa(m.base) + PackEa(m.size) + PackEa(m.rebaseTo)
              case ExitCode(code) => PackDd(code)
              case Bpt(hea, kea) => PackEa(hea) + PackEa(kea)
              case Exc(e) => PackDd(e.code) + [if e.canCont then 0x01 else 0x00] + PackEa(e.ea) + (e.info + [0x00])
              case Info(info) => info + [0x00]
  {
    hide PackEa;
    hide PackDd;
    hide EncPayload;
    hide FlagWord;
    PayloadBytes(ev.payload);
    FlagBytes(ev.handled);
  }

  lemma PayloadBytes(p: Payload)
    ensures EncPayload(p) ==
            match p
            case NoPayload => []
            case Module(m) => (m.name + [0x00]) + PackEa(m.base) + PackEa(m.size) + PackEa(m.rebaseTo)
            case ExitCode(code) => PackDd(code)
            case Bpt(hea, kea) => PackEa(hea) + PackEa(kea)
            case Exc(e) => PackDd(e.code) + [if e.canCont then 0x01 else 0x00] + PackEa(e.ea) + (e.info + [0x00])
            case Info(info) => info + [0x00]
  {
    hide PackEa;
    match p
    case NoPayload =>
    case Module(m) =>
    case ExitCode(code) =>
    case Bpt(hea, kea) =>
    case Exc(e) => FlagBytes(e.canCont);
    case Info(info) =>
  }

  /** For instance a breakpoint of thread 3 of process 2 at address 0x10. */
  lemma BreakpointBytes()
    ensures EncEvent(Event(BREAKPOINT, 2, 3, 0x10, false, Bpt(BADADDR, 0x20)))
            == [0x10, 0x02, 0x03, 0x11, 0x00, 0x00, 0x00, 0x01, 0x21, 0x00]
  {
    EventBytes(Event(BREAKPOINT, 2, 3, 0x10, false, Bpt(BADADDR, 0x20)));
    EaBytes(0x10);
    EaBytes(BADADDR);
    EaBytes(0x20);
  }

  lemma ExcEntryBytes(e: ExcEntry)
    ensures EncExcEntry(e) == PackDd(e.code) + PackDd(e.flags) + (e.name + [0x00]) + (e.desc + [0x00])
  {
  }

  lemma FrameBytes(c: Frame)
    ensures EncFrame(c) == PackEa(c.callea) + PackEa(c.funcea) + PackEa(c.fp) + [if c.funcok then 0x01 else 0x00]
  {
    hide PackEa;
    FlagBytes(c.funcok);
  }

  lemma RegObjBytes(withValues: bool, r: RegObj)
    ensures EncRegObj(withValues, r) ==
            PackDd(r.regidx % TWO_32) + PackDd(|r.value| % TWO_32)
            + if withValues then PackDd(r.relocate % TWO_32) + r.value else []
  {
    assert r.value + [] == r.value;
  }

  lemma RelObjBytes(r: RelObj)
    ensures EncRelObj(r) == PackDd(|r.image| % TWO_32) + r.image + PackEa(r.base) + PackDd(|r.ri| % TWO_32) + r.ri
  {
    hide PackEa;
    hide PackDd;
    assert r.image + [] == r.image && r.ri + [] == r.ri;
  }

  lemma MemoryInfoBytes(m: MemoryInfo)
    ensures EncMemoryInfo(m) ==
            PackEa(m.sbase) + PackEa((m.start - m.sbase * 16) % TWO_32) + PackEa((m.end - m.start) % TWO_32)
            + PackDd(PermWord(m.perm, m.bitness)) + (m.name + [0x00]) + (m.sclass + [0x00])
  {
    hide PackEa;
    hide PackDd;
    hide PermWord;
  }

  lemma AppcallBytes(a: Appcall)
    ensures EncAppcall(a) ==
            PackDd(|a.regargs| % TWO_32) + EncAll(RegEncoder(true), a.regargs) + EncRelObj(a.stkargs)
            + if a.retregs.None? then [] else
                PackDd(|a.retregs.value| % TWO_32) + EncAll(RegEncoder(false), a.retregs.value)
  {
    hide PackDd;
    hide EncAll;
    hide EncRelObj;
  }
}
