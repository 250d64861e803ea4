/** Register values: a tag, then an integer, a floating point number or custom bytes;
    and vectors of them, of which a bitmap selects the registers that travel. */
module RegVals {
  import opened DebugEvents
  import opened Wire
  import opened WireRecords
  import opened WireTables

  // rvtype is -1 for integers and -2 for floating point; other types are custom.
  datatype RegVal =
    | IntVal(ival: quad)
    | FloatVal(fval: seq<byte>)
    | CustomVal(rvtype: nat, bytes: seq<byte>)

  const FLOAT_SIZE: nat := 12
  const RVT_INT: word := 1    // as sent: two is added to the type
  const RVT_FLOAT: word := 0

  predicate Proper(v: RegVal) {
    match v
    case IntVal(_) => true
    case FloatVal(f) => |f| == FLOAT_SIZE
    case CustomVal(t, b) => t < 0x8000_0000 && |b| < MAX_COUNT
  }

  // The integer is sent plus one, modulo 2^64.
  function Up(x: quad): quad { if x == TWO_64 - 1 then 0 else x + 1 }
  function Down(x: quad): quad { if x == 0 then TWO_64 - 1 else x - 1 }

  function EncRegVal(v: RegVal): (s: seq<byte>)
    requires Proper(v)
    ensures |s| > 0
  {
    match v
    case IntVal(x) => PackDd(RVT_INT) + (PackDq(Up(x)) + [])
    case FloatVal(f) => PackDd(RVT_FLOAT) + (f + [])
    case CustomVal(t, b) => PackDd(t + 2) + (EncBlock(b) + [])
  }

  // A custom value comes out with type 0.
  function DecRegVal(rd: Reader, data: seq<byte>, pos: nat): Parsed<RegVal> {
    var (tag, p) := UnpackDd(rd, data, pos);
    if tag == RVT_INT then (var (x, p') := UnpackDq(rd, data, p); Got(IntVal(Down(x)), p'))
    else if tag == RVT_FLOAT then (var (f, p') :- UnpackMemory(data, p, FLOAT_SIZE); Got(FloatVal(f), p'))
    else (var (b, p') :- DecBlock(rd, data, p); Got(CustomVal(0, b), p'))
  }

  function Arrived(v: RegVal): RegVal {
    if v.CustomVal? then v.(rvtype := 0) else v
  }

  predicate FitsRegVal(rd: Reader, v: RegVal) {
    && Proper(v)
    && match v
       case IntVal(x) => FitsDq(rd, Up(x))
       case FloatVal(_) => true
       case CustomVal(t, b) => FitsDd(rd, t + 2) && FitsBlock(rd, b)
  }

  lemma DqRead(rd: Reader, data: seq<byte>, pos: nat, x: quad)
    requires At(data, pos, PackDq(x) + []) && FitsDq(rd, x)
    ensures UnpackDq(rd, data, pos) == (x, pos + |PackDq(x)|)
  {
    AtSplit(data, pos, PackDq(x), []);
    DqRoundTripIff(rd, data, pos, x);
  }

  lemma RegValRoundTrip(rd: Reader, data: seq<byte>, pos: nat, v: RegVal)
    requires FitsRegVal(rd, v) && At(data, pos, EncRegVal(v))
    ensures DecRegVal(rd, data, pos) == Got(Arrived(v), pos + |EncRegVal(v)|)
  {
    hide At;
    hide UnpackDd;
    hide PackDd;
    hide UnpackDq;
    hide PackDq;
    hide FitsDq;
    hide DecBlock;
    hide EncBlock;
    hide FitsBlock;
    match v
    case IntVal(x) =>
      DdRead(rd, data, pos, RVT_INT, PackDq(Up(x)) + []);
      DqRead(rd, data, pos + |PackDd(RVT_INT)|, Up(x));
    case FloatVal(f) =>
      DdRead(rd, data, pos, RVT_FLOAT, f + []);
      MemoryRead(data, pos + |PackDd(RVT_FLOAT)|, f, []);
    case CustomVal(t, b) =>
      DdRead(rd, data, pos, t + 2, EncBlock(b) + []);
      BlockRoundTrip(rd, data, pos + |PackDd(t + 2)|, b, []);
  }

  // ---------------------------------------------------------------- vectors

  predicate TestBit(bitmap: seq<bv8>, i: nat)
    requires i < 8 * |bitmap|
  {
    bitmap[i / 8] & ((1 as bv8) << (i % 8)) != 0
  }

  // No bitmap selects every register.
  predicate Wanted(regmap: Option<seq<bv8>>, i: nat)
    requires regmap.Some? ==> i < 8 * |regmap.value|
  {
    regmap.None? || TestBit(regmap.value, i)
  }

  predicate CoversAll(regmap: Option<seq<bv8>>, n: nat) {
    regmap.Some? ==> n <= 8 * |regmap.value|
  }

  predicate AllProper(values: seq<RegVal>) {
    forall i :: 0 <= i < |values| ==> Proper(values[i])
  }

  // The registers from i on.
  function EncRegVals(values: seq<RegVal>, regmap: Option<seq<bv8>>, i: nat): seq<byte>
    requires i <= |values| && CoversAll(regmap, |values|) && AllProper(values)
    decreases |values| - i
  {
    if i == |values| then []
    else (if Wanted(regmap, i) then EncRegVal(values[i]) else []) + EncRegVals(values, regmap, i + 1)
  }

  // Extraction stops at the end of the data.
  function DecRegVals(rd: Reader, data: seq<byte>, pos: nat, values: seq<RegVal>, regmap: Option<seq<bv8>>, i: nat)
    : (r: Parsed<seq<RegVal>>)
    requires i <= |values| && CoversAll(regmap, |values|)
    ensures r.Got? ==> |r.value| == |values|
    decreases |values| - i
  {
    if i == |values| || pos >= |data| then Got(values, pos)
    else if Wanted(regmap, i) then
      var (v, p) :- DecRegVal(rd, data, pos);
      DecRegVals(rd, data, p, values[i := v], regmap, i + 1)
    else DecRegVals(rd, data, pos, values, regmap, i + 1)
  }

  // The receiver's registers after the exchange.
  function Merged(sent: seq<RegVal>, own: seq<RegVal>, regmap: Option<seq<bv8>>, i: nat): (r: seq<RegVal>)
    requires |sent| == |own| && i <= |own| && CoversAll(regmap, |own|)
    ensures |r| == |own|
    ensures forall k :: 0 <= k < |own| ==>
              r[k] == if k >= i && Wanted(regmap, k) then Arrived(sent[k]) else own[k]
  {
    seq(|own|, k requires 0 <= k < |own| => if k >= i && Wanted(regmap, k) then Arrived(sent[k]) else own[k])
  }

  predicate AllFit(rd: Reader, values: seq<RegVal>, regmap: Option<seq<bv8>>)
    requires CoversAll(regmap, |values|)
  {
    forall i :: 0 <= i < |values| && Wanted(regmap, i) ==> FitsRegVal(rd, values[i])
  }

  // Nothing is left to send when no further register is wanted.
  lemma {:induction false} NothingWanted(values: seq<RegVal>, regmap: Option<seq<bv8>>, i: nat)
    requires i <= |values| && CoversAll(regmap, |values|) && AllProper(values)
    ensures EncRegVals(values, regmap, i) == [] ==> forall k :: i <= k < |values| ==> !Wanted(regmap, k)
    decreases |values| - i
  {
    hide Wanted;
    hide EncRegVal;
    if i < |values| { NothingWanted(values, regmap, i + 1); }
  }

  /** With the same bitmap every selected register is restored and the others are left
      alone; the end-of-data guard never drops a selected one. */
  lemma {:induction false} RegValsRoundTrip(rd: Reader, data: seq<byte>, pos: nat, sent: seq<RegVal>, own: seq<RegVal>,
                                            regmap: Option<seq<bv8>>, i: nat)
    requires |sent| == |own| && i <= |own| && CoversAll(regmap, |own|) && AllProper(sent) && AllFit(rd, sent, regmap)
    requires At(data, pos, EncRegVals(sent, regmap, i))
    ensures var r := DecRegVals(rd, data, pos, own, regmap, i);
            r.Got? && r.value == Merged(sent, own, regmap, i)
            && (pos + |EncRegVals(sent, regmap, i)| == r.pos)
    decreases |sent| - i
  {
    hide Wanted;
    hide EncRegVal;
    hide DecRegVal;
    NothingWanted(sent, regmap, i);
    if i == |own| || pos >= |data| {
      assert EncRegVals(sent, regmap, i) == [];
      assert Merged(sent, own, regmap, i) == own;
    } else {
      var rest := EncRegVals(sent, regmap, i + 1);
      if Wanted(regmap, i) {
        AtSplit(data, pos, EncRegVal(sent[i]), rest);
        RegValRoundTrip(rd, data, pos, sent[i]);
        var own' := own[i := Arrived(sent[i])];
        RegValsRoundTrip(rd, data, pos + |EncRegVal(sent[i])|, sent, own', regmap, i + 1);
        assert Merged(sent, own', regmap, i + 1) == Merged(sent, own, regmap, i);
      } else {
        assert [] + rest == rest;
        RegValsRoundTrip(rd, data, pos, sent, own, regmap, i + 1);
        assert Merged(sent, own, regmap, i + 1) == Merged(sent, own, regmap, i);
      }
    }
  }
}
