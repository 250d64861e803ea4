/** The protocol's tables and argument blocks, built from lists of items. */
module WireTables {
  import opened DebugEvents
  import opened Wire
  import opened WireRecords

  // ---------------------------------------------------------------- exception table

  datatype ExcEntry = ExcEntry(code: word, flags: word, name: Text, desc: Text)

  function EncExcEntry(e: ExcEntry): seq<byte> {
    PackDd(e.code) + (PackDd(e.flags) + (PackStr(e.name) + (PackStr(e.desc) + [])))
  }

  function DecExcEntry(rd: Reader, data: seq<byte>, pos: nat): Parsed<ExcEntry> {
    var (code, p0) := UnpackDd(rd, data, pos);
    var (flags, p1) := UnpackDd(rd, data, p0);
    var (name, p2) :- UnpackStr(data, p1);
    var (desc, p3) :- UnpackStr(data, p2);
    Got(ExcEntry(code, flags, name, desc), p3)
  }

  predicate FitsExcEntry(rd: Reader, e: ExcEntry) {
    FitsDd(rd, e.code) && FitsDd(rd, e.flags)
  }

  lemma ExcEntryRoundTrip(rd: Reader, data: seq<byte>, pos: nat, e: ExcEntry)
    requires At(data, pos, EncExcEntry(e)) && FitsExcEntry(rd, e)
    ensures DecExcEntry(rd, data, pos) == Got(e, pos + |EncExcEntry(e)|)
  {
    hide UnpackStr;
    hide PackStr;
    hide At;
    hide UnpackDd;
    hide PackDd;
    hide FitsDd;
    var r3 := PackStr(e.desc) + [];
    var r2 := PackStr(e.name) + r3;
    var r1 := PackDd(e.flags) + r2;
    DdRead(rd, data, pos, e.code, r1);
    var p0 := pos + |PackDd(e.code)|;
    DdRead(rd, data, p0, e.flags, r2);
    var p1 := p0 + |PackDd(e.flags)|;
    StrRead(data, p1, e.name, r3);
    StrRead(data, p1 + |PackStr(e.name)|, e.desc, []);
  }

  function ExcEncoder(): ExcEntry -> seq<byte> { e => EncExcEntry(e) }

  function ExcDecoder(rd: Reader, data: seq<byte>): nat -> Parsed<ExcEntry> { (p: nat) => DecExcEntry(rd, data, p) }

  lemma ExcEntryInverse(rd: Reader, data: seq<byte>, e: ExcEntry)
    requires FitsExcEntry(rd, e)
    ensures ReadAs(ExcEncoder(), ExcDecoder(rd, data), data, e, e)
  {
    hide At;
    hide EncExcEntry;
    hide DecExcEntry;
    forall p: nat | At(data, p, EncExcEntry(e))
      ensures DecExcEntry(rd, data, p) == Got(e, p + |EncExcEntry(e)|)
    {
      ExcEntryRoundTrip(rd, data, p, e);
    }
  }

  /** The count of an exception table is sent apart from it. */
  lemma ExcTableRoundTrip(rd: Reader, data: seq<byte>, pos: nat, table: seq<ExcEntry>)
    requires At(data, pos, EncAll(ExcEncoder(), table))
    requires forall i :: 0 <= i < |table| ==> FitsExcEntry(rd, table[i])
    ensures DecAll(ExcDecoder(rd, data), pos, |table|) == Got(table, pos + |EncAll(ExcEncoder(), table)|)
  {
    hide At;
    hide EncAll;
    hide DecAll;
    forall i | 0 <= i < |table| ensures ReadAs(ExcEncoder(), ExcDecoder(rd, data), data, table[i], table[i]) {
      ExcEntryInverse(rd, data, table[i]);
    }
    ListRoundTrip(ExcEncoder(), ExcDecoder(rd, data), data, pos, table, table);
  }

  // ---------------------------------------------------------------- counted lists

  // Counts are C ints; a negative one cannot be allocated.
  const MAX_COUNT: nat := 0x8000_0000

  function EncList<T>(enc: T -> seq<byte>, xs: seq<T>): seq<byte> {
    PackDd(|xs| % TWO_32) + EncAll(enc, xs)
  }

  function DecList<T>(rd: Reader, dec: nat -> Parsed<T>, data: seq<byte>, pos: nat): Parsed<seq<T>> {
    var (n, p) := UnpackDd(rd, data, pos);
    if n >= MAX_COUNT then Abort else DecAll(dec, p, n)
  }

  lemma CountedRoundTrip<T(!new)>(rd: Reader, enc: T -> seq<byte>, dec: nat -> Parsed<T>,
                                  data: seq<byte>, pos: nat, xs: seq<T>, ys: seq<T>)
    requires At(data, pos, EncList(enc, xs)) && |xs| < MAX_COUNT && FitsDd(rd, |xs|) && |ys| == |xs|
    requires forall i :: 0 <= i < |xs| ==> ReadAs(enc, dec, data, xs[i], ys[i])
    ensures DecList(rd, dec, data, pos) == Got(ys, pos + |EncList(enc, xs)|)
  {
    hide At;
    hide UnpackDd;
    hide PackDd;
    DdRead(rd, data, pos, |xs|, EncAll(enc, xs));
    ListRoundTrip(enc, dec, data, pos + |PackDd(|xs|)|, xs, ys);
  }

  // ---------------------------------------------------------------- call stack

  datatype Frame = Frame(callea: word, funcea: word, fp: word, funcok: bool)

  function EncFrame(c: Frame): seq<byte> {
    PackEa(c.callea) + (PackEa(c.funcea) + (PackEa(c.fp) + (PackDd(FlagWord(c.funcok)) + [])))
  }

  function DecFrame(rd: Reader, data: seq<byte>, pos: nat): Parsed<Frame> {
    var (callea, p0) := UnpackEa(rd, data, pos);
    var (funcea, p1) := UnpackEa(rd, data, p0);
    var (fp, p2) := UnpackEa(rd, data, p1);
    var (funcok, p3) := UnpackDd(rd, data, p2);
    Got(Frame(callea, funcea, fp, funcok != 0), p3)
  }

  predicate FitsFrame(rd: Reader, c: Frame) {
    FitsEa(rd, c.callea) && FitsEa(rd, c.funcea) && FitsEa(rd, c.fp)
  }

  lemma FrameRoundTrip(rd: Reader, data: seq<byte>, pos: nat, c: Frame)
    requires At(data, pos, EncFrame(c)) && FitsFrame(rd, c)
    ensures DecFrame(rd, data, pos) == Got(c, pos + |EncFrame(c)|)
  {
    hide At;
    hide UnpackDd;
    hide PackDd;
    hide UnpackEa;
    hide PackEa;
    hide FitsEa;
    hide FitsDd;
    FlagFits(rd, c.funcok);
    var r3 := PackDd(FlagWord(c.funcok)) + [];
    var r2 := PackEa(c.fp) + r3;
    var r1 := PackEa(c.funcea) + r2;
    EaRead(rd, data, pos, c.callea, r1);
    var p0 := pos + |PackEa(c.callea)|;
    EaRead(rd, data, p0, c.funcea, r2);
    var p1 := p0 + |PackEa(c.funcea)|;
    EaRead(rd, data, p1, c.fp, r3);
    DdRead(rd, data, p1 + |PackEa(c.fp)|, FlagWord(c.funcok), []);
  }

  function FrameEncoder(): Frame -> seq<byte> { c => EncFrame(c) }

  function FrameDecoder(rd: Reader, data: seq<byte>): nat -> Parsed<Frame> { (p: nat) => DecFrame(rd, data, p) }

  lemma FrameInverse(rd: Reader, data: seq<byte>, c: Frame)
    requires FitsFrame(rd, c)
    ensures ReadAs(FrameEncoder(), FrameDecoder(rd, data), data, c, c)
  {
    hide At;
    hide EncFrame;
    hide DecFrame;
    forall p: nat | At(data, p, EncFrame(c))
      ensures DecFrame(rd, data, p) == Got(c, p + |EncFrame(c)|)
    {
      FrameRoundTrip(rd, data, p, c);
    }
  }

  lemma CallStackRoundTrip(rd: Reader, data: seq<byte>, pos: nat, trace: seq<Frame>)
    requires At(data, pos, EncList(FrameEncoder(), trace)) && |trace| < MAX_COUNT && FitsDd(rd, |trace|)
    requires forall i :: 0 <= i < |trace| ==> FitsFrame(rd, trace[i])
    ensures DecList(rd, FrameDecoder(rd, data), data, pos) == Got(trace, pos + |EncList(FrameEncoder(), trace)|)
  {
    hide At;
    hide EncList;
    hide DecList;
    forall i | 0 <= i < |trace| ensures ReadAs(FrameEncoder(), FrameDecoder(rd, data), data, trace[i], trace[i]) {
      FrameInverse(rd, data, trace[i]);
    }
    CountedRoundTrip(rd, FrameEncoder(), FrameDecoder(rd, data), data, pos, trace, trace);
  }

  // ---------------------------------------------------------------- application call arguments

  datatype RegObj = RegObj(regidx: int, relocate: int, value: seq<byte>)

  // Blocks of raw bytes are preceded by their size.
  function EncBlock(b: seq<byte>): seq<byte> {
    PackDd(|b| % TWO_32) + (b + [])
  }

  function DecBlock(rd: Reader, data: seq<byte>, pos: nat): Parsed<seq<byte>> {
    var (n, p) := UnpackDd(rd, data, pos);
    if n >= MAX_COUNT then Abort else UnpackMemory(data, p, n)
  }

  predicate FitsBlock(rd: Reader, b: seq<byte>) {
    |b| < MAX_COUNT && FitsDd(rd, |b|)
  }

  lemma BlockRoundTrip(rd: Reader, data: seq<byte>, pos: nat, b: seq<byte>, rest: seq<byte>)
    requires At(data, pos, EncBlock(b) + rest) && FitsBlock(rd, b)
    ensures DecBlock(rd, data, pos) == Got(b, pos + |EncBlock(b)|) && At(data, pos + |EncBlock(b)|, rest)
  {
    hide At;
    hide UnpackDd;
    hide PackDd;
    AtSplit(data, pos, EncBlock(b), rest);
    DdRead(rd, data, pos, |b|, b + []);
    MemoryRead(data, pos + |PackDd(|b|)|, b, []);
  }

  // The values travel only with the arguments; for the returned registers the sizes do.
  function EncRegObj(withValues: bool, r: RegObj): seq<byte> {
    PackDd(Unsigned(r.regidx)) + (PackDd(|r.value| % TWO_32)
    + (if withValues then PackDd(Unsigned(r.relocate)) + (r.value + []) else []))
  }

  function DecRegObj(withValues: bool, rd: Reader, data: seq<byte>, pos: nat): Parsed<RegObj> {
    var (regidx, p0) := UnpackDd(rd, data, pos);
    var (size, p1) := UnpackDd(rd, data, p0);
    if size >= MAX_COUNT then Abort
    else if withValues then
      var (relocate, p2) := UnpackDd(rd, data, p1);
      var (value, p3) :- UnpackMemory(data, p2, size);
      Got(RegObj(Signed(regidx), Signed(relocate), value), p3)
    else
      Got(RegObj(Signed(regidx), 0, seq(size, _ => 0)), p1)
  }

  predicate FitsRegObj(rd: Reader, r: RegObj) {
    && IsInt(r.regidx) && FitsDd(rd, Unsigned(r.regidx))
    && IsInt(r.relocate) && FitsDd(rd, Unsigned(r.relocate))
    && FitsBlock(rd, r.value)
  }

  function Received(withValues: bool, r: RegObj): RegObj {
    if withValues then r else RegObj(r.regidx, 0, seq(|r.value|, _ => 0))
  }

  lemma RegObjRoundTrip(withValues: bool, rd: Reader, data: seq<byte>, pos: nat, r: RegObj)
    requires At(data, pos, EncRegObj(withValues, r)) && FitsRegObj(rd, r)
    ensures DecRegObj(withValues, rd, data, pos) == Got(Received(withValues, r), pos + |EncRegObj(withValues, r)|)
  {
    hide At;
    hide UnpackDd;
    hide PackDd;
    var tail := if withValues then PackDd(Unsigned(r.relocate)) + (r.value + []) else [];
    var r1 := PackDd(|r.value|) + tail;
    DdRead(rd, data, pos, Unsigned(r.regidx), r1);
    var p0 := pos + |PackDd(Unsigned(r.regidx))|;
    DdRead(rd, data, p0, |r.value|, tail);
    var p1 := p0 + |PackDd(|r.value|)|;
    if withValues {
      DdRead(rd, data, p1, Unsigned(r.relocate), r.value + []);
      MemoryRead(data, p1 + |PackDd(Unsigned(r.relocate))|, r.value, []);
    }
  }

  function RegEncoder(withValues: bool): RegObj -> seq<byte> { r => EncRegObj(withValues, r) }

  function RegDecoder(withValues: bool, rd: Reader, data: seq<byte>): nat -> Parsed<RegObj> {
    (p: nat) => DecRegObj(withValues, rd, data, p)
  }

  predicate FitsRegObjs(rd: Reader, rs: seq<RegObj>) {
    |rs| < MAX_COUNT && FitsDd(rd, |rs|) && forall i :: 0 <= i < |rs| ==> FitsRegObj(rd, rs[i])
  }

  lemma RegObjReadAs(withValues: bool, rd: Reader, data: seq<byte>, r: RegObj)
    requires FitsRegObj(rd, r)
    ensures ReadAs(RegEncoder(withValues), RegDecoder(withValues, rd, data), data, r, Received(withValues, r))
  {
    hide At;
    hide EncRegObj;
    hide DecRegObj;
    hide Received;
    forall p: nat | At(data, p, EncRegObj(withValues, r))
      ensures DecRegObj(withValues, rd, data, p) == Got(Received(withValues, r), p + |EncRegObj(withValues, r)|)
    {
      RegObjRoundTrip(withValues, rd, data, p, r);
    }
  }

  function ReceivedAll(withValues: bool, rs: seq<RegObj>): (r: seq<RegObj>)
    ensures |r| == |rs| && (withValues ==> r == rs)
    ensures forall i :: 0 <= i < |rs| ==> r[i] == Received(withValues, rs[i])
  {
    seq(|rs|, i requires 0 <= i < |rs| => Received(withValues, rs[i]))
  }

  lemma RegObjsRoundTrip(withValues: bool, rd: Reader, data: seq<byte>, pos: nat, rs: seq<RegObj>)
    requires At(data, pos, EncList(RegEncoder(withValues), rs)) && FitsRegObjs(rd, rs)
    ensures DecList(rd, RegDecoder(withValues, rd, data), data, pos)
            == Got(ReceivedAll(withValues, rs), pos + |EncList(RegEncoder(withValues), rs)|)
  {
    hide At;
    hide EncList;
    hide DecList;
    hide Received;
    var received := ReceivedAll(withValues, rs);
    forall i | 0 <= i < |rs|
      ensures ReadAs(RegEncoder(withValues), RegDecoder(withValues, rd, data), data, rs[i], received[i])
    {
      RegObjReadAs(withValues, rd, data, rs[i]);
    }
    CountedRoundTrip(rd, RegEncoder(withValues), RegDecoder(withValues, rd, data), data, pos, rs, received);
  }

  // A stack image that can be relocated to base at the offsets packed in ri.
  datatype RelObj = RelObj(image: seq<byte>, base: word, ri: seq<byte>)

  function EncRelObj(r: RelObj): seq<byte> {
    EncBlock(r.image) + (PackEa(r.base) + (EncBlock(r.ri) + []))
  }

  function DecRelObj(rd: Reader, data: seq<byte>, pos: nat): Parsed<RelObj> {
    var (image, p0) :- DecBlock(rd, data, pos);
    var (base, p1) := UnpackEa(rd, data, p0);
    var (ri, p2) :- DecBlock(rd, data, p1);
    Got(RelObj(image, base, ri), p2)
  }

  predicate FitsRelObj(rd: Reader, r: RelObj) {
    FitsBlock(rd, r.image) && FitsEa(rd, r.base) && FitsBlock(rd, r.ri)
  }

  lemma RelObjRoundTrip(rd: Reader, data: seq<byte>, pos: nat, r: RelObj)
    requires At(data, pos, EncRelObj(r)) && FitsRelObj(rd, r)
    ensures DecRelObj(rd, data, pos) == Got(r, pos + |EncRelObj(r)|)
  {
    hide At;
    hide DecBlock;
    hide EncBlock;
    hide UnpackEa;
    hide PackEa;
    hide FitsEa;
    hide FitsBlock;
    var r2 := EncBlock(r.ri) + [];
    var r1 := PackEa(r.base) + r2;
    BlockRoundTrip(rd, data, pos, r.image, r1);
    var p0 := pos + |EncBlock(r.image)|;
    EaRead(rd, data, p0, r.base, r2);
    BlockRoundTrip(rd, data, p0 + |PackEa(r.base)|, r.ri, []);
  }

  // An application call: argument registers, stack image and, if the caller wants
  // them, the registers to return.
  datatype Appcall = Appcall(regargs: seq<RegObj>, stkargs: RelObj, retregs: Option<seq<RegObj>>)

  function EncAppcall(a: Appcall): seq<byte> {
    EncList(RegEncoder(true), a.regargs) + (EncRelObj(a.stkargs)
    + (if a.retregs.Some? then EncList(RegEncoder(false), a.retregs.value) else []))
  }

  function DecAppcall(rd: Reader, wantRet: bool, data: seq<byte>, pos: nat): Parsed<Appcall> {
    var (regargs, p0) :- DecList(rd, RegDecoder(true, rd, data), data, pos);
    var (stkargs, p1) :- DecRelObj(rd, data, p0);
    if wantRet then
      var (retregs, p2) :- DecList(rd, RegDecoder(false, rd, data), data, p1);
      Got(Appcall(regargs, stkargs, Some(retregs)), p2)
    else Got(Appcall(regargs, stkargs, None), p1)
  }

  predicate FitsAppcall(rd: Reader, a: Appcall) {
    && FitsRegObjs(rd, a.regargs) && FitsRelObj(rd, a.stkargs)
    && (a.retregs.Some? ==> FitsRegObjs(rd, a.retregs.value))
  }

  // The call as the other end sees it: of the registers to return, number and size arrive,
  // the value is zero and is not marked for relocation.
  function CallReceived(a: Appcall): Appcall {
    if a.retregs.Some? then a.(retregs := Some(ReceivedAll(false, a.retregs.value))) else a
  }

  lemma AppcallRoundTrip(rd: Reader, data: seq<byte>, pos: nat, a: Appcall)
    requires At(data, pos, EncAppcall(a)) && FitsAppcall(rd, a)
    ensures DecAppcall(rd, a.retregs.Some?, data, pos) == Got(CallReceived(a), pos + |EncAppcall(a)|)
  {
    hide At;
    hide EncList;
    hide DecList;
    hide EncRelObj;
    hide DecRelObj;
    hide FitsRegObjs;
    hide FitsRelObj;
    var r2 := if a.retregs.Some? then EncList(RegEncoder(false), a.retregs.value) else [];
    var r1 := EncRelObj(a.stkargs) + r2;
    AtSplit(data, pos, EncList(RegEncoder(true), a.regargs), r1);
    RegObjsRoundTrip(true, rd, data, pos, a.regargs);
    var p0 := pos + |EncList(RegEncoder(true), a.regargs)|;
    AtSplit(data, p0, EncRelObj(a.stkargs), r2);
    RelObjRoundTrip(rd, data, p0, a.stkargs);
    if a.retregs.Some? {
      RegObjsRoundTrip(false, rd, data, p0 + |EncRelObj(a.stkargs)|, a.retregs.value);
    }
  }

  // ---------------------------------------------------------------- memory areas

  datatype MemoryInfo = MemoryInfo(sbase: word, start: word, end: word, perm: byte, bitness: byte, name: Text,
      sclass: Text)

  function Minus(a: word, b: int): word { (a - b) % TWO_32 }

  function Plus(a: int, b: word): word { (a + b) % TWO_32 }

  function OrBits(a: bv4, b: bv4): bv4 { a | b }

  function OrNibbles(a: int, b: int): (r: int)
    requires 0 <= a < 16 && 0 <= b < 16
    ensures 0 <= r < 16
  {
    OrBits(a as bv4, b as bv4) as int
  }

  lemma OrSame(a: bv4)
    ensures OrBits(a, a) == a
  {
  }

  lemma OrNibblesSame(a: int, b: int)
    requires 0 <= a < 16 && 0 <= b < 16
    ensures OrNibbles(a, b) == a && OrNibbles(a, b) == b <==> a == b
  {
    hide OrBits;
    OrSame(a as bv4);
  }

  // perm | (bitness << 4): the low nibble of the permissions, the high one combined with
  // the low nibble of the bitness, and the rest of the bitness.
  function PermWord(perm: byte, bitness: byte): word {
    perm % 16 + OrNibbles(perm / 16, bitness % 16) * 16 + bitness / 16 * 256
  }

  function EncMemoryInfo(m: MemoryInfo): seq<byte> {
    PackEa(m.sbase) + (PackEa(Minus(m.start, m.sbase * 16)) + (PackEa(Minus(m.end, m.start))
    + (PackDd(PermWord(m.perm, m.bitness)) + (PackStr(m.name) + (PackStr(m.sclass) + [])))))
  }

  function DecMemoryInfo(rd: Reader, data: seq<byte>, pos: nat): Parsed<MemoryInfo> {
    var (sbase, p0) := UnpackEa(rd, data, pos);
    var (off, p1) := UnpackEa(rd, data, p0);
    var (size, p2) := UnpackEa(rd, data, p1);
    var (v, p3) := UnpackDd(rd, data, p2);
    var (name, p4) :- UnpackStr(data, p3);
    var (sclass, p5) :- UnpackStr(data, p4);
    var start := Plus(sbase * 16, off);
    Got(MemoryInfo(sbase, start, Plus(start, size), PermOf(v), BitnessOf(v), name, sclass), p5)
  }

  predicate FitsMemoryInfo(rd: Reader, m: MemoryInfo) {
    && FitsEa(rd, m.sbase) && FitsEa(rd, Minus(m.start, m.sbase * 16)) && FitsEa(rd, Minus(m.end, m.start))
    && FitsDd(rd, PermWord(m.perm, m.bitness))
  }

  lemma MinusPlus(a: word, b: int)
    ensures Plus(b, Minus(a, b)) == a
  {
  }

  // The two bytes taken from the word again.
  function PermOf(v: word): byte { v % 256 }

  function BitnessOf(v: word): byte { v / 16 % 256 }

  /** The permissions come back with the bitness in their high nibble: what is sent is
      received exactly when the two nibbles that overlap are equal.  The low four bits of
      the permissions always survive. */
  lemma PermWordIff(perm: byte, bitness: byte)
    ensures var v := PermWord(perm, bitness);
            && PermOf(v) % 16 == perm % 16
            && (PermOf(v) == perm && BitnessOf(v) == bitness <==> perm / 16 == bitness % 16)
  {
    hide OrNibbles;
    var o := OrNibbles(perm / 16, bitness % 16);
    OrNibblesSame(perm / 16, bitness % 16);
    PermWordBytes(perm % 16, o, bitness / 16);
  }

  lemma PermWordBytes(p: int, o: int, b: int)
    requires 0 <= p < 16 && 0 <= o < 16 && 0 <= b < 16
    ensures (p + o * 16 + b * 256) % 256 == p + o * 16 && (p + o * 16 + b * 256) / 16 % 256 == o + b * 16
    ensures (p + o * 16) % 16 == p
  {
  }

  // The strings at the end of a memory description, and the packed permissions.
  lemma MemoryTail(rd: Reader, data: seq<byte>, pos: nat, v: word, name: Text, sclass: Text)
    requires At(data, pos, PackDd(v) + (PackStr(name) + (PackStr(sclass) + []))) && FitsDd(rd, v)
    ensures var p := pos + |PackDd(v)|; var p' := p + |PackStr(name)|;
            && UnpackDd(rd, data, pos) == (v, p)
            && UnpackStr(data, p) == Got(name, p')
            && UnpackStr(data, p') == Got(sclass, p' + |PackStr(sclass)|)
  {
    hide At;
    hide UnpackDd;
    hide PackDd;
    hide UnpackStr;
    hide PackStr;
    DdRead(rd, data, pos, v, PackStr(name) + (PackStr(sclass) + []));
    StrRead(data, pos + |PackDd(v)|, name, PackStr(sclass) + []);
    StrRead(data, pos + |PackDd(v)| + |PackStr(name)|, sclass, []);
  }

  /** Everything but the permissions and the bitness survives as it is. */
  lemma MemoryInfoRoundTrip(rd: Reader, data: seq<byte>, pos: nat, m: MemoryInfo)
    requires At(data, pos, EncMemoryInfo(m)) && FitsMemoryInfo(rd, m)
    ensures var v := PermWord(m.perm, m.bitness);
            DecMemoryInfo(rd, data, pos)
            == Got(m.(perm := PermOf(v), bitness := BitnessOf(v)), pos + |EncMemoryInfo(m)|)
  {
    hide At;
    hide UnpackDd;
    hide PackDd;
    hide UnpackEa;
    hide PackEa;
    hide UnpackStr;
    hide PackStr;
    hide FitsEa;
    hide FitsDd;
    hide Plus;
    hide Minus;
    hide PermWord;
    hide PermOf;
    hide BitnessOf;
    var off, size, v := Minus(m.start, m.sbase * 16), Minus(m.end, m.start), PermWord(m.perm, m.bitness);
    MinusPlus(m.start, m.sbase * 16);
    MinusPlus(m.end, m.start);
    var r3 := PackDd(v) + (PackStr(m.name) + (PackStr(m.sclass) + []));
    var r2 := PackEa(size) + r3;
    var r1 := PackEa(off) + r2;
    EaRead(rd, data, pos, m.sbase, r1);
    var p0 := pos + |PackEa(m.sbase)|;
    EaRead(rd, data, p0, off, r2);
    var p1 := p0 + |PackEa(off)|;
    EaRead(rd, data, p1, size, r3);
    MemoryTail(rd, data, p1 + |PackEa(size)|, v, m.name, m.sclass);
  }

  /** So a memory area is received as sent exactly when the bitness repeats the high nibble
      of the permissions: for the three permission bits there are, when it is zero. */
  lemma MemoryInfoSurvivesIff(rd: Reader, data: seq<byte>, pos: nat, m: MemoryInfo)
    requires At(data, pos, EncMemoryInfo(m)) && FitsMemoryInfo(rd, m)
    ensures DecMemoryInfo(rd, data, pos) == Got(m, pos + |EncMemoryInfo(m)|) <==> m.perm / 16 == m.bitness % 16
  {
    hide DecMemoryInfo;
    hide EncMemoryInfo;
    hide FitsMemoryInfo;
    hide At;
    hide PermWord;
    hide PermOf;
    hide BitnessOf;
    MemoryInfoRoundTrip(rd, data, pos, m);
    PermWordIff(m.perm, m.bitness);
  }
}
