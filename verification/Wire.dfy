/** The self-delimiting number formats of the protocol, strings and addresses: what is
    appended to a packet and what is extracted from it again.  The program's own
    unpacking routine tests for the longer formats with a comparison that never holds,
    so the two ends are told apart. */
module Wire {
  import opened DebugEvents

  const TWO_64: int := 0x1_0000_0000_0000_0000

  type quad = x: int | 0 <= x < TWO_64

  // The result of an extraction: the value and the new read position, or a failed check.
  datatype Parsed<+T> = Got(value: T, pos: nat) | Abort {
    predicate IsFailure() { Abort? }
    function PropagateFailure<U>(): Parsed<U>
      requires Abort?
    {
      Abort
    }
    function Extract(): (T, nat)
      requires Got?
    {
      (value, pos)
    }
  }

  // Who reads: the client, with the decoder the format implies, or this program.  wide is
  // what its 64-bit reader makes of a high half that is not zero: it shifts a 32-bit
  // value by 32 bits, which C leaves undefined.
  datatype Reader = Client | Server(wide: (word, word) -> word)

  // enc is what data holds from pos on.
  predicate At(data: seq<byte>, pos: nat, enc: seq<byte>) {
    pos + |enc| <= |data| && data[pos..pos + |enc|] == enc
  }

  lemma AtSplit(data: seq<byte>, pos: nat, a: seq<byte>, b: seq<byte>)
    requires At(data, pos, a + b)
    ensures At(data, pos, a) && At(data, pos + |a|, b)
  {
    assert data[pos..pos + |a|] == data[pos..pos + |a + b|][..|a|];
    assert data[pos + |a|..pos + |a| + |b|] == data[pos..pos + |a + b|][|a|..];
  }

  lemma AtByte(data: seq<byte>, pos: nat, enc: seq<byte>, i: nat)
    requires At(data, pos, enc) && i < |enc|
    ensures data[pos + i] == enc[i]
  {
    assert data[pos..pos + |enc|][i] == data[pos + i];
  }

  // ---------------------------------------------------------------- double words

  // x without its n low bytes, and its n low bytes, highest first.
  function High(x: nat, n: nat): (h: nat)
    ensures h <= x
  {
    if n == 0 then x else High(x, n - 1) / 256
  }

  function BigEndian(x: nat, n: nat): (s: seq<byte>)
    ensures |s| == n
  {
    if n == 0 then [] else [High(x, n - 1) % 256] + BigEndian(x, n - 1)
  }

  lemma HighBytes(x: word)
    ensures High(x, 1) == x / 256 && High(x, 3) == x / 0x100_0000 && High(x, 4) == 0
  {
    assert High(x, 3) == High(x, 2) / 256;
    assert High(x, 2) == High(x, 1) / 256;
  }

  // One, two, four or five bytes; the first byte tells which.
  function PackDd(x: word): (s: seq<byte>)
    ensures 0 < |s| <= 5
    ensures x <= 0x3FFF <==> |s| <= 2
  {
    if x > 0x7F then
      if x > 0x3FFF then
        if x > 0x1FFF_FFFF then [0xFF] + BigEndian(x, 4)
        else [0xC0 + x / 0x100_0000] + BigEndian(x, 3)
      else [0x80 + x / 256] + BigEndian(x, 1)
    else [x]
  }

  // Big-endian digits following acc; missing bytes count as zero.
  function Digits(data: seq<byte>, pos: nat, n: nat, acc: nat): (nat, nat)
    decreases n
  {
    if n == 0 then (acc, pos)
    else if pos < |data| then Digits(data, pos + 1, n - 1, acc * 256 + data[pos])
    else Digits(data, pos, n - 1, acc * 256)
  }

  // Decoding as the format implies.
  function ClientDd(data: seq<byte>, pos: nat): (word, nat) {
    if pos >= |data| then (0, pos)
    else
      var b := data[pos];
      var (x, p) :=
        if b < 0x80 then (b, pos + 1)
        else if b < 0xC0 then Digits(data, pos + 1, 1, b - 0x80)
        else if b < 0xE0 then Digits(data, pos + 1, 3, b - 0xC0)
        else Digits(data, pos + 1, 4, 0);
      (x % TWO_32, p)
  }

  // unpack_dd as written: every byte with the high bit set starts a two-byte number.
  function ServerDd(data: seq<byte>, pos: nat): (word, nat) {
    if pos >= |data| then (0, pos)
    else
      var b: int := data[pos];
      if b < 0x80 || pos + 1 >= |data| then (b, pos + 1)
      else (data[pos + 1] + (b - 0x80) * 256, pos + 2)
  }

  function UnpackDd(rd: Reader, data: seq<byte>, pos: nat): (word, nat) {
    if rd.Client? then ClientDd(data, pos) else ServerDd(data, pos)
  }

  predicate FitsDd(rd: Reader, x: word) {
    rd.Client? || x <= 0x3FFF
  }

  lemma {:induction false} DigitsInverse(data: seq<byte>, pos: nat, x: nat, n: nat)
    requires At(data, pos, BigEndian(x, n))
    ensures Digits(data, pos, n, High(x, n)) == (x, pos + n)
    decreases n
  {
    if n > 0 {
      var first := [High(x, n - 1) % 256];
      AtSplit(data, pos, first, BigEndian(x, n - 1));
      AtByte(data, pos, first, 0);
      DigitsInverse(data, pos + 1, x, n - 1);
    }
  }

  lemma ClientDdLong(data: seq<byte>, pos: nat, x: word, top: byte, n: nat)
    requires PackDd(x) == [top] + BigEndian(x, n) && n > 0
    requires At(data, pos, PackDd(x))
    ensures data[pos] == top && Digits(data, pos + 1, n, High(x, n)) == (x, pos + 1 + n)
  {
    AtSplit(data, pos, [top], BigEndian(x, n));
    AtByte(data, pos, [top], 0);
    DigitsInverse(data, pos + 1, x, n);
  }

  lemma ClientDdInverse(data: seq<byte>, pos: nat, x: word)
    requires At(data, pos, PackDd(x))
    ensures ClientDd(data, pos) == (x, pos + |PackDd(x)|)
  {
    HighBytes(x);
    if x <= 0x7F {
      AtByte(data, pos, PackDd(x), 0);
    } else if x <= 0x3FFF {
      ClientDdLong(data, pos, x, 0x80 + x / 256, 1);
    } else if x <= 0x1FFF_FFFF {
      ClientDdLong(data, pos, x, 0xC0 + x / 0x100_0000, 3);
    } else {
      ClientDdLong(data, pos, x, 0xFF, 4);
    }
  }

  lemma ServerDdReads(data: seq<byte>, pos: nat, x: word)
    requires At(data, pos, PackDd(x))
    ensures x <= 0x3FFF ==> ServerDd(data, pos) == (x, pos + |PackDd(x)|)
    ensures x > 0x3FFF ==> ServerDd(data, pos).1 == pos + 2 < pos + |PackDd(x)|
  {
    AtByte(data, pos, PackDd(x), 0);
    if x > 0x7F { AtByte(data, pos, PackDd(x), 1); }
  }

  /** Extracting a double word gives the appended value and consumes exactly its bytes,
      whatever follows, for the client; the program itself does so up to 0x3FFF only. */
  lemma DdRoundTripIff(rd: Reader, data: seq<byte>, pos: nat, x: word)
    requires At(data, pos, PackDd(x))
    ensures UnpackDd(rd, data, pos) == (x, pos + |PackDd(x)|) <==> FitsDd(rd, x)
  {
    if rd.Client? { ClientDdInverse(data, pos, x); } else { ServerDdReads(data, pos, x); }
  }

  /** 0x4001 is packed as C0 00 40 01; the program reads 0x4000 from the first two bytes
      and takes the other two for the next number. */
  lemma ServerMisreads()
    ensures PackDd(0x4001) == [0xC0, 0x00, 0x40, 0x01] && ServerDd(PackDd(0x4001), 0) == (0x4000, 2)
  {
    HighBytes(0x4001);
    assert High(0x4001, 2) == High(0x4001, 1) / 256;
    assert BigEndian(0x4001, 3)
        == [High(0x4001, 2) % 256] + ([High(0x4001, 1) % 256] + ([0x01] + BigEndian(0x4001, 0)));
  }

  // ---------------------------------------------------------------- quad words, addresses

  function PackDq(x: quad): (s: seq<byte>)
    ensures 0 < |s| <= 10
  {
    PackDd(x % TWO_32) + PackDd(x / TWO_32)
  }

  function UnpackDq(rd: Reader, data: seq<byte>, pos: nat): (quad, nat) {
    var (lo, p) := UnpackDd(rd, data, pos);
    var (hi, p') := UnpackDd(rd, data, p);
    if rd.Client? || hi == 0 then (hi * TWO_32 + lo, p') else (rd.wide(hi, lo), p')
  }

  predicate FitsDq(rd: Reader, x: quad) {
    rd.Client? || x <= 0x3FFF
  }

  // The program takes at most two bytes for a double word.
  lemma ServerDdShort(data: seq<byte>, pos: nat)
    ensures ServerDd(data, pos).1 <= pos + 2
  {
  }

  // The two halves of a quad word, as the program reads them back.
  lemma ServerDq(rd: Reader, data: seq<byte>, pos: nat, lo: word, hi: word)
    requires rd.Server? && At(data, pos, PackDd(lo) + PackDd(hi))
    ensures lo <= 0x3FFF && hi <= 0x3FFF ==>
              UnpackDq(rd, data, pos) == (if hi == 0 then lo else rd.wide(hi, lo), pos + |PackDd(lo) + PackDd(hi)|)
    ensures lo > 0x3FFF || hi > 0x3FFF ==> UnpackDq(rd, data, pos).1 != pos + |PackDd(lo) + PackDd(hi)|
  {
    AtSplit(data, pos, PackDd(lo), PackDd(hi));
    DdRoundTripIff(rd, data, pos, lo);
    ServerDdShort(data, pos);
    ServerDdShort(data, ServerDd(data, pos).1);
    if lo <= 0x3FFF { DdRoundTripIff(rd, data, pos + |PackDd(lo)|, hi); }
  }

  lemma ClientDq(data: seq<byte>, pos: nat, lo: word, hi: word)
    requires At(data, pos, PackDd(lo) + PackDd(hi))
    ensures UnpackDq(Client, data, pos) == (hi * TWO_32 + lo, pos + |PackDd(lo) + PackDd(hi)|)
  {
    AtSplit(data, pos, PackDd(lo), PackDd(hi));
    ClientDdInverse(data, pos, lo);
    ClientDdInverse(data, pos + |PackDd(lo)|, hi);
  }

  lemma DqClient(data: seq<byte>, pos: nat, x: quad)
    requires At(data, pos, PackDq(x))
    ensures UnpackDq(Client, data, pos) == (x, pos + |PackDq(x)|)
  {
    hide PackDd;
    hide ClientDd;
    var lo: word, hi: word := x % TWO_32, x / TWO_32;
    ClientDq(data, pos, lo, hi);
    assert x == hi * TWO_32 + lo;
  }

  lemma ServerDqIff(rd: Reader, data: seq<byte>, pos: nat, x: quad)
    requires rd.Server? && At(data, pos, PackDq(x))
    ensures UnpackDq(rd, data, pos) == (x, pos + |PackDq(x)|) <==> x <= 0x3FFF
  {
    var lo: word, hi: word := x % TWO_32, x / TWO_32;
    var r, n := UnpackDq(rd, data, pos), pos + |PackDq(x)|;
    ServerDq(rd, data, pos, lo, hi);
    assert x == hi * TWO_32 + lo;
    if lo > 0x3FFF || hi > 0x3FFF {
      assert r.1 != n;
    } else {
      assert r == (if hi == 0 then lo else rd.wide(hi, lo), n);
    }
  }

  lemma DqRoundTripIff(rd: Reader, data: seq<byte>, pos: nat, x: quad)
    requires At(data, pos, PackDq(x))
    ensures UnpackDq(rd, data, pos) == (x, pos + |PackDq(x)|) <==> FitsDq(rd, x)
  {
    if rd.Client? { DqClient(data, pos, x); } else { ServerDqIff(rd, data, pos, x); }
  }

  // ea_t is 32 bits wide here; one is added so that BADADDR is not all ones on the wire.
  function PackEa(ea: word): seq<byte> {
    PackDq(ea + 1)
  }

  function UnpackEa(rd: Reader, data: seq<byte>, pos: nat): (word, nat) {
    var (x, p) := UnpackDq(rd, data, pos);
    ((x - 1) % TWO_32, p)
  }

  predicate FitsEa(rd: Reader, ea: word) {
    rd.Client? || ea + 1 <= 0x3FFF || (ea == BADADDR && rd.wide(1, 0) == 0)
  }

  function LoEa(ea: word): word { if ea == BADADDR then 0 else ea + 1 }
  function HiEa(ea: word): word { if ea == BADADDR then 1 else 0 }

  lemma EaHalves(ea: word)
    ensures PackEa(ea) == PackDd(LoEa(ea)) + PackDd(HiEa(ea))
  {
    assert (ea + 1) % TWO_32 == LoEa(ea) && (ea + 1) / TWO_32 == HiEa(ea);
  }

  lemma EaClient(data: seq<byte>, pos: nat, ea: word)
    requires At(data, pos, PackEa(ea))
    ensures UnpackEa(Client, data, pos) == (ea, pos + |PackEa(ea)|)
  {
    hide PackDd;
    hide ClientDd;
    EaHalves(ea);
    ClientDq(data, pos, LoEa(ea), HiEa(ea));
    assert UnpackDq(Client, data, pos).0 == ea + 1;
  }

  lemma EaServer(rd: Reader, data: seq<byte>, pos: nat, ea: word)
    requires rd.Server? && At(data, pos, PackEa(ea))
    ensures UnpackEa(rd, data, pos) == (ea, pos + |PackEa(ea)|) <==> FitsEa(rd, ea)
  {
    EaHalves(ea);
    var r := UnpackDq(rd, data, pos);
    ServerDq(rd, data, pos, LoEa(ea), HiEa(ea));
    if ea == BADADDR {
      assert r.0 == rd.wide(1, 0);
    } else if ea + 1 <= 0x3FFF {
      assert r.0 == ea + 1;
    }
  }

  lemma EaRoundTripIff(rd: Reader, data: seq<byte>, pos: nat, ea: word)
    requires At(data, pos, PackEa(ea))
    ensures UnpackEa(rd, data, pos) == (ea, pos + |PackEa(ea)|) <==> FitsEa(rd, ea)
  {
    if rd.Client? { EaClient(data, pos, ea); } else { EaServer(rd, data, pos, ea); }
  }

  // The same for an end whose addresses have width bits: one is added in 64 bits, and the
  // result of the subtraction is cut.
  function PackWideEa(ea: quad): seq<byte> {
    PackDq((ea + 1) % TWO_64)
  }

  function UnpackWideEa(rd: Reader, width: int, data: seq<byte>, pos: nat): (quad, nat)
    requires width in {TWO_32, TWO_64}
  {
    var (x, p) := UnpackDq(rd, data, pos);
    ((x - 1) % width, p)
  }

  lemma OneOff(ea: quad, width: int)
    requires width in {TWO_32, TWO_64}
    ensures ((ea + 1) % TWO_64 - 1) % width == ea % width
  {
    if ea == TWO_64 - 1 { assert ea % TWO_32 == TWO_32 - 1; }
  }

  /** Between ends of different address width the value received is the value sent modulo
      the receiver's width, so BADADDR survives except from a 32-bit to a 64-bit end. */
  lemma EaAcrossWidths(data: seq<byte>, pos: nat, ea: quad, from: int, to: int)
    requires from in {TWO_32, TWO_64} && to in {TWO_32, TWO_64} && ea < from
    requires At(data, pos, PackWideEa(ea))
    ensures UnpackWideEa(Client, to, data, pos) == (ea % to, pos + |PackWideEa(ea)|)
    ensures ea == from - 1 ==>
              (UnpackWideEa(Client, to, data, pos).0 == to - 1 <==> !(from == TWO_32 && to == TWO_64))
  {
    hide UnpackDq;
    hide PackDq;
    DqClient(data, pos, (ea + 1) % TWO_64);
    OneOff(ea, to);
    assert ea == TWO_64 - 1 ==> ea % TWO_32 == TWO_32 - 1;
  }

  // ---------------------------------------------------------------- strings, memory

  function PackStr(t: Text): seq<byte> {
    t + [0]
  }

  function FirstNul(data: seq<byte>, pos: nat): (k: Option<nat>)
    decreases |data| - pos
    ensures k.None? ==> forall i :: pos <= i < |data| ==> data[i] != 0
    ensures k.Some? ==> pos <= k.value < |data| && data[k.value] == 0 && forall i :: pos <= i < k.value ==> data[i] != 0
  {
    if pos >= |data| then None else if data[pos] == 0 then Some(pos) else FirstNul(data, pos + 1)
  }

  // extract_str: the text up to the first NUL, which must be there.
  function UnpackStr(data: seq<byte>, pos: nat): Parsed<Text> {
    match FirstNul(data, pos)
    case None => Abort
    case Some(k) => Got(data[pos..k], k + 1)
  }

  lemma StrRoundTrip(data: seq<byte>, pos: nat, t: Text)
    requires At(data, pos, PackStr(t))
    ensures UnpackStr(data, pos) == Got(t, pos + |PackStr(t)|)
  {
    forall i: nat | i < |PackStr(t)| ensures data[pos + i] == PackStr(t)[i] { AtByte(data, pos, PackStr(t), i); }
    assert data[pos + |t|] == 0;
    forall i | pos <= i < pos + |t| ensures data[i] != 0 { assert data[pos + (i - pos)] == t[i - pos]; }
    assert FirstNul(data, pos) == Some(pos + |t|);
    assert data[pos..pos + |t|] == data[pos..pos + |PackStr(t)|][..|t|];
  }

  /** Extraction fails exactly when no terminator follows. */
  lemma StrAbortIff(data: seq<byte>, pos: nat)
    ensures UnpackStr(data, pos).Abort? <==> forall i :: pos <= i < |data| ==> data[i] != 0
  {
  }

  // extract_memory
  function UnpackMemory(data: seq<byte>, pos: nat, size: nat): Parsed<seq<byte>> {
    if pos + size <= |data| then Got(data[pos..pos + size], pos + size) else Abort
  }

  // Character arrays hold MAXSTR bytes; longer strings are cut.
  const MAXSTR: nat := 1024

  function Cut(t: Text): Text {
    if |t| > MAXSTR then t[..MAXSTR] else t
  }
}
