/** The append and extract routines at work: a packet that grows in place, and a cursor
    that moves over received data.  Each method is proved against its format. */
module Packets {
  import opened DebugEvents
  import opened Wire
  import opened WireRecords
  import opened WireTables
  import opened RegVals

  lemma TwoBytes(x: nat)
    requires x < 0x1_0000
    ensures BigEndian(x, 2) == [x / 256, x % 256]
  {
    assert BigEndian(x, 2) == [High(x, 1) % 256] + ([High(x, 0) % 256] + BigEndian(x, 0));
  }

  lemma Halves(x: word)
    ensures x % 0x1_0000 / 256 == x / 256 % 256 && x % 0x1_0000 % 256 == x % 256
    ensures x / 0x1_0000 / 256 == x / 0x100_0000 && High(x, 2) == x / 0x1_0000 && High(x, 1) == x / 256
  {
    assert High(x, 2) == High(x, 1) / 256;
  }

  lemma ThreeBytes(x: word)
    ensures BigEndian(x, 3) == [x / 0x1_0000 % 256] + BigEndian(x % 0x1_0000, 2)
  {
    Halves(x);
    TwoBytes(x % 0x1_0000);
    assert BigEndian(x, 3) == [High(x, 2) % 256] + BigEndian(x, 2);
    assert BigEndian(x, 2) == [High(x, 1) % 256] + BigEndian(x, 1);
    assert BigEndian(x, 1) == [High(x, 0) % 256] + BigEndian(x, 0);
  }

  // The formats as put_dw writes them.
  lemma DdByte(x: word)
    requires x <= 0x7F
    ensures PackDd(x) == [x]
  {
  }

  lemma DdShort(x: word)
    requires 0x7F < x <= 0x3FFF
    ensures PackDd(x) == BigEndian(x + 0x8000, 2)
  {
    TwoBytes(x + 0x8000);
    assert BigEndian(x, 1) == [High(x, 0) % 256] + BigEndian(x, 0);
    assert (x + 0x8000) / 256 == 0x80 + x / 256;
  }

  lemma DdMiddle(x: word)
    requires 0x3FFF < x <= 0x1FFF_FFFF
    ensures PackDd(x) == BigEndian(x / 0x1_0000 + 0xC000, 2) + BigEndian(x % 0x1_0000, 2)
  {
    ThreeBytes(x);
    TwoBytes(x / 0x1_0000 + 0xC000);
    Halves(x);
    assert (x / 0x1_0000 + 0xC000) / 256 == 0xC0 + x / 0x100_0000;
  }

  lemma DdLong(x: word)
    requires 0x1FFF_FFFF < x
    ensures PackDd(x) == [0xFF] + BigEndian(x / 0x1_0000, 2) + BigEndian(x % 0x1_0000, 2)
  {
    ThreeBytes(x);
    TwoBytes(x / 0x1_0000);
    Halves(x);
    HighBytes(x);
    assert BigEndian(x, 4) == [High(x, 3) % 256] + BigEndian(x, 3);
  }

  lemma {:induction false} EncAllSnoc<T>(enc: T -> seq<byte>, xs: seq<T>, x: T)
    ensures EncAll(enc, xs + [x]) == EncAll(enc, xs) + enc(x)
    decreases |xs|
  {
    if xs == [] {
      assert ([] + [x])[1..] == [];
      assert EncAll(enc, []) == [];
      assert enc(x) + [] == enc(x) == [] + enc(x);
    } else {
      assert (xs + [x])[1..] == xs[1..] + [x];
      EncAllSnoc(enc, xs[1..], x);
      assert enc(xs[0]) + (EncAll(enc, xs[1..]) + enc(x)) == (enc(xs[0]) + EncAll(enc, xs[1..])) + enc(x);
    }
  }

  class Packet {
    var bytes: seq<byte>

    constructor ()
      ensures bytes == []
    {
      bytes := [];
    }

    // put_dw: the high byte, then the low byte.
    method PutDw(v: nat)
      requires v < 0x1_0000
      modifies this
      ensures bytes == old(bytes) + BigEndian(v, 2)
    {
      bytes := bytes + [v / 256];
      bytes := bytes + [v % 256];
      TwoBytes(v);
    }

    method AppendDd(x: word)
      modifies this
      ensures bytes == old(bytes) + PackDd(x)
    {
      hide BigEndian;
      hide PackDd;
      if x > 0x7F {
        if x > 0x3FFF {
          if x > 0x1FFF_FFFF {
            DdLong(x);
            bytes := bytes + [0xFF];
            PutDw(x / 0x1_0000);
          } else {
            DdMiddle(x);
            PutDw(x / 0x1_0000 + 0xC000);
          }
          PutDw(x % 0x1_0000);
        } else {
          DdShort(x);
          PutDw(x + 0x8000);
        }
      } else {
        DdByte(x);
        bytes := bytes + [x];
      }
    }

    method AppendDq(x: quad)
      modifies this
      ensures bytes == old(bytes) + PackDq(x)
    {
      AppendDd(x % TWO_32);
      AppendDd(x / TWO_32);
    }

    method AppendEa64(ea: word)
      modifies this
      ensures bytes == old(bytes) + PackEa(ea)
    {
      AppendDq(ea + 1);
    }

    method AppendStr(t: Text)
      modifies this
      ensures bytes == old(bytes) + PackStr(t)
    {
      bytes := bytes + t + [0];
    }

    method AppendMemory(b: seq<byte>)
      modifies this
      ensures bytes == old(bytes) + b
    {
      if |b| != 0 { bytes := bytes + b; }
    }

    method AppendModuleInfo(m: ModuleInfo)
      modifies this
      ensures bytes == old(bytes) + EncModule(m)
    {
      hide PackEa;
      hide PackStr;
      AppendStr(m.name);
      AppendEa64(m.base);
      AppendEa64(m.size);
      AppendEa64(m.rebaseTo);
    }

    method AppendException(e: ExceptionInfo)
      modifies this
      ensures bytes == old(bytes) + EncException(e)
    {
      hide PackDd;
      hide PackEa;
      hide PackStr;
      AppendDd(e.code);
      AppendDd(FlagWord(e.canCont));
      AppendEa64(e.ea);
      AppendStr(e.info);
    }

    method AppendDebugEvent(ev: Event)
      requires Selects(ev.eid, ev.payload)
      modifies this
      ensures bytes == old(bytes) + EncEvent(ev)
    {
      hide PackDd;
      hide PackEa;
      AppendDd(ev.eid);
      AppendDd(Unsigned(ev.pid));
      AppendDd(Unsigned(ev.tid));
      AppendEa64(ev.ea);
      AppendDd(FlagWord(ev.handled));
      AppendPayload(ev.eid, ev.payload);
    }

    // The member of the union that the event identifier selects.
    method AppendPayload(eid: word, p: Payload)
      requires Selects(eid, p)
      modifies this
      ensures bytes == old(bytes) + EncPayload(p)
    {
      hide PackDd;
      hide PackEa;
      hide PackStr;
      hide EncModule;
      hide EncException;
      if eid == PROCESS_START || eid == PROCESS_ATTACH || eid == LIBRARY_LOAD {
        AppendModuleInfo(p.modinfo);
      } else if eid == PROCESS_EXIT || eid == THREAD_EXIT {
        AppendDd(p.exitCode);
      } else if eid == BREAKPOINT {
        AppendEa64(p.hea);
        AppendEa64(p.kea);
      } else if eid == EXCEPTION {
        AppendException(p.exc);
      } else if eid == LIBRARY_UNLOAD || eid == INFORMATION {
        AppendStr(p.info);
      }
    }

    method AppendExcEntry(e: ExcEntry)
      modifies this
      ensures bytes == old(bytes) + EncExcEntry(e)
    {
      hide PackDd;
      hide PackStr;
      AppendDd(e.code);
      AppendDd(e.flags);
      AppendStr(e.name);
      AppendStr(e.desc);
    }

    method AppendExceptionInfo(table: seq<ExcEntry>)
      modifies this
      ensures bytes == old(bytes) + EncAll(ExcEncoder(), table)
    {
      hide EncExcEntry;
      for i := 0 to |table|
        invariant bytes == old(bytes) + EncAll(ExcEncoder(), table[..i])
      {
        EncAllSnoc(ExcEncoder(), table[..i], table[i]);
        assert table[..i + 1] == table[..i] + [table[i]];
        AppendExcEntry(table[i]);
      }
      assert table[..|table|] == table;
    }

    method AppendFrame(c: Frame)
      modifies this
      ensures bytes == old(bytes) + EncFrame(c)
    {
      hide PackDd;
      hide PackEa;
      AppendEa64(c.callea);
      AppendEa64(c.funcea);
      AppendEa64(c.fp);
      AppendDd(FlagWord(c.funcok));
    }

    method AppendCallStack(trace: seq<Frame>)
      modifies this
      ensures bytes == old(bytes) + EncList(FrameEncoder(), trace)
    {
      hide EncFrame;
      hide PackDd;
      ghost var head := PackDd(|trace| % TWO_32);
      AppendDd(|trace| % TWO_32);
      for i := 0 to |trace|
        invariant bytes == old(bytes) + head + EncAll(FrameEncoder(), trace[..i])
      {
        EncAllSnoc(FrameEncoder(), trace[..i], trace[i]);
        assert trace[..i + 1] == trace[..i] + [trace[i]];
        AppendFrame(trace[i]);
      }
      assert trace[..|trace|] == trace;
    }

    method AppendRegObj(r: RegObj, withValues: bool)
      modifies this
      ensures bytes == old(bytes) + EncRegObj(withValues, r)
    {
      hide PackDd;
      AppendDd(Unsigned(r.regidx));
      AppendDd(|r.value| % TWO_32);
      if withValues {
        AppendDd(Unsigned(r.relocate));
        AppendMemory(r.value);
      }
    }

    method AppendRegObjs(rs: seq<RegObj>, withValues: bool)
      modifies this
      ensures bytes == old(bytes) + EncList(RegEncoder(withValues), rs)
    {
      hide EncRegObj;
      hide PackDd;
      ghost var head := PackDd(|rs| % TWO_32);
      AppendDd(|rs| % TWO_32);
      for i := 0 to |rs|
        invariant bytes == old(bytes) + head + EncAll(RegEncoder(withValues), rs[..i])
      {
        EncAllSnoc(RegEncoder(withValues), rs[..i], rs[i]);
        assert rs[..i + 1] == rs[..i] + [rs[i]];
        AppendRegObj(rs[i], withValues);
      }
      assert rs[..|rs|] == rs;
    }

    method AppendBlock(b: seq<byte>)
      modifies this
      ensures bytes == old(bytes) + EncBlock(b)
    {
      hide PackDd;
      AppendDd(|b| % TWO_32);
      AppendMemory(b);
    }

    method AppendAppcall(a: Appcall)
      modifies this
      ensures bytes == old(bytes) + EncAppcall(a)
    {
      hide EncList;
      hide EncBlock;
      hide PackEa;
      AppendRegObjs(a.regargs, true);
      AppendBlock(a.stkargs.image);
      AppendEa64(a.stkargs.base);
      AppendBlock(a.stkargs.ri);
      if a.retregs.Some? { AppendRegObjs(a.retregs.value, false); }
    }

    method AppendRegVal(v: RegVal)
      requires Proper(v)
      modifies this
      ensures bytes == old(bytes) + EncRegVal(v)
    {
      hide PackDd;
      hide PackDq;
      hide EncBlock;
      match v
      case IntVal(x) =>
        AppendDd(RVT_INT);
        AppendDq(Up(x));
      case FloatVal(f) =>
        AppendDd(RVT_FLOAT);
        AppendMemory(f);
      case CustomVal(t, b) =>
        AppendDd(t + 2);
        AppendBlock(b);
    }

    method AppendRegVals(values: array<RegVal>, regmap: Option<seq<bv8>>)
      requires CoversAll(regmap, values.Length) && AllProper(values[..])
      modifies this
      ensures bytes == old(bytes) + EncRegVals(values[..], regmap, 0)
    {
      hide EncRegVal;
      hide TestBit;
      ghost var all := old(bytes) + EncRegVals(values[..], regmap, 0);
      var i := 0;
      while i < values.Length
        invariant i <= values.Length && AllProper(values[..])
        invariant bytes + EncRegVals(values[..], regmap, i) == all
      {
        ghost var rest := EncRegVals(values[..], regmap, i + 1);
        if Wanted(regmap, i) {
          assert bytes + (EncRegVal(values[..][i]) + rest) == (bytes + EncRegVal(values[..][i])) + rest;
          AppendRegVal(values[i]);
        } else {
          assert [] + rest == rest;
        }
        i := i + 1;
      }
      assert bytes + [] == bytes;
    }
  }

  // ---------------------------------------------------------------- extraction

  // The items of a list that are done, and those still to come.
  function Joined<T>(done: seq<T>, rest: Parsed<seq<T>>): Parsed<seq<T>> {
    if rest.Got? then Got(done + rest.value, rest.pos) else Abort
  }

  lemma JoinedNone<T>(rest: Parsed<seq<T>>)
    ensures Joined([], rest) == rest
  {
    if rest.Got? { assert [] + rest.value == rest.value; }
  }

  lemma JoinedAll<T>(done: seq<T>, pos: nat)
    ensures Joined(done, Got([], pos)) == Got(done, pos)
  {
    assert done + [] == done;
  }

  lemma DecStep<T>(dec: nat -> Parsed<T>, done: seq<T>, pos: nat, n: nat)
    requires n > 0
    ensures Joined(done, DecAll(dec, pos, n))
            == match dec(pos) case Abort => Abort case Got(x, p) => Joined(done + [x], DecAll(dec, p, n - 1))
  {
    if dec(pos).Got? {
      var x, p := dec(pos).value, dec(pos).pos;
      var rest := DecAll(dec, p, n - 1);
      if rest.Got? { assert done + ([x] + rest.value) == done + [x] + rest.value; }
    }
  }

  class Cursor {
    const data: seq<byte>
    const rd: Reader
    var pos: nat

    constructor (data: seq<byte>, rd: Reader)
      ensures this.data == data && this.rd == rd && pos == 0
    {
      this.data, this.rd, pos := data, rd, 0;
    }

    method ExtractLong() returns (x: word)
      modifies this
      ensures (x, pos) == UnpackDd(rd, data, old(pos))
    {
      if rd.Client? {
        var (v, p) := ClientDd(data, pos);
        x, pos := v, p;
        return;
      }
      x := 0;
      if pos < |data| {
        x := data[pos];
        pos := pos + 1;
      }
      if x >= 0x80 && pos < |data| {
        x := data[pos] + (x - 0x80) * 256;
        pos := pos + 1;
      }
    }

    method ExtractUint64() returns (x: quad)
      modifies this
      ensures (x, pos) == UnpackDq(rd, data, old(pos))
    {
      hide ClientDd;
      hide ServerDd;
      var lo := ExtractLong();
      var hi := ExtractLong();
      x := if rd.Client? || hi == 0 then hi * TWO_32 + lo else rd.wide(hi, lo);
    }

    method ExtractEa64() returns (ea: word)
      modifies this
      ensures (ea, pos) == UnpackEa(rd, data, old(pos))
    {
      var x := ExtractUint64();
      ea := (x - 1) % TWO_32;
    }

    // The do-while scan of extract_str; the data must not end before the terminator.
    method ExtractStr() returns (r: Parsed<Text>)
      modifies this
      ensures r == UnpackStr(data, old(pos)) && (r.Got? ==> pos == r.pos)
    {
      var i := pos;
      while i < |data| && data[i] != 0
        invariant pos <= i && (i <= |data| || i == pos)
        invariant forall k :: pos <= k < i ==> data[k] != 0
        invariant FirstNul(data, i) == FirstNul(data, pos)
        decreases |data| - i
      {
        i := i + 1;
      }
      if i >= |data| { return Abort; }
      r := Got(data[pos..i], i + 1);
      pos := i + 1;
    }

    method ExtractMemory(size: nat) returns (r: Parsed<seq<byte>>)
      modifies this
      ensures r == UnpackMemory(data, old(pos), size) && (r.Got? ==> pos == r.pos)
    {
      if pos + size > |data| { return Abort; }
      r := Got(data[pos..pos + size], pos + size);
      pos := pos + size;
    }

    method ExtractModuleInfo() returns (r: Parsed<ModuleInfo>)
      modifies this
      ensures r == DecModule(rd, data, old(pos)) && (r.Got? ==> pos == r.pos)
    {
      hide UnpackEa;
      hide UnpackStr;
      var name :- ExtractStr();
      var base := ExtractEa64();
      var size := ExtractEa64();
      var rebaseTo := ExtractEa64();
      r := Got(ModuleInfo(Cut(name.0), base, size, rebaseTo), pos);
    }

    method ExtractException() returns (r: Parsed<ExceptionInfo>)
      modifies this
      ensures r == DecException(rd, data, old(pos)) && (r.Got? ==> pos == r.pos)
    {
      hide UnpackDd;
      hide UnpackEa;
      hide UnpackStr;
      var code := ExtractLong();
      var canCont := ExtractLong();
      var ea := ExtractEa64();
      var info :- ExtractStr();
      r := Got(ExceptionInfo(code, canCont != 0, ea, Cut(info.0)), pos);
    }

    method ExtractPayload(eid: word) returns (r: Parsed<Payload>)
      modifies this
      ensures r == DecPayload(rd, eid, data, old(pos)) && (r.Got? ==> pos == r.pos)
    {
      hide UnpackDd;
      hide UnpackEa;
      hide UnpackStr;
      hide DecModule;
      hide DecException;
      if eid == PROCESS_START || eid == PROCESS_ATTACH || eid == LIBRARY_LOAD {
        var m :- ExtractModuleInfo();
        r := Got(Module(m.0), pos);
      } else if eid == PROCESS_EXIT || eid == THREAD_EXIT {
        var code := ExtractLong();
        r := Got(ExitCode(code), pos);
      } else if eid == BREAKPOINT {
        var hea := ExtractEa64();
        var kea := ExtractEa64();
        r := Got(Bpt(hea, kea), pos);
      } else if eid == EXCEPTION {
        var e :- ExtractException();
        r := Got(Exc(e.0), pos);
      } else if eid == LIBRARY_UNLOAD || eid == INFORMATION {
        var t :- ExtractStr();
        r := Got(Info(Cut(t.0)), pos);
      } else {
        r := Got(NoPayload, pos);
      }
    }

    method ExtractDebugEvent() returns (r: Parsed<Event>)
      modifies this
      ensures r == DecEvent(rd, data, old(pos)) && (r.Got? ==> pos == r.pos)
    {
      hide UnpackDd;
      hide UnpackEa;
      hide DecPayload;
      var eid := ExtractLong();
      var pid := ExtractLong();
      var tid := ExtractLong();
      var ea := ExtractEa64();
      var handled := ExtractLong();
      var payload :- ExtractPayload(eid);
      r := Got(Event(eid, Signed(pid), Signed(tid), ea, handled != 0, payload.0), pos);
    }

    method ExtractExcEntry() returns (r: Parsed<ExcEntry>)
      modifies this
      ensures r == ExcDecoder(rd, data)(old(pos)) && (r.Got? ==> pos == r.pos)
    {
      hide UnpackDd;
      hide UnpackStr;
      var code := ExtractLong();
      var flags := ExtractLong();
      var name :- ExtractStr();
      var desc :- ExtractStr();
      r := Got(ExcEntry(code, flags, name.0, desc.0), pos);
    }

    method ExtractExceptionInfo(qty: nat) returns (r: Parsed<seq<ExcEntry>>)
      modifies this
      ensures r == DecAll(ExcDecoder(rd, data), old(pos), qty) && (r.Got? ==> pos == r.pos)
    {
      hide DecExcEntry;
      var table: seq<ExcEntry> := [];
      JoinedNone(DecAll(ExcDecoder(rd, data), pos, qty));
      for i := 0 to qty
        invariant DecAll(ExcDecoder(rd, data), old(pos), qty)
                  == Joined(table, DecAll(ExcDecoder(rd, data), pos, qty - i))
      {
        DecStep(ExcDecoder(rd, data), table, pos, qty - i);
        var e :- ExtractExcEntry();
        table := table + [e.0];
      }
      JoinedAll(table, pos);
      r := Got(table, pos);
    }

    method ExtractFrame() returns (r: Parsed<Frame>)
      modifies this
      ensures r == FrameDecoder(rd, data)(old(pos)) && r.Got? && pos == r.pos
    {
      hide UnpackDd;
      hide UnpackEa;
      var callea := ExtractEa64();
      var funcea := ExtractEa64();
      var fp := ExtractEa64();
      var funcok := ExtractLong();
      r := Got(Frame(callea, funcea, fp, funcok != 0), pos);
    }

    method ExtractCallStack() returns (r: Parsed<seq<Frame>>)
      modifies this
      ensures r == DecList(rd, FrameDecoder(rd, data), data, old(pos)) && (r.Got? ==> pos == r.pos)
    {
      hide UnpackDd;
      hide DecFrame;
      var n := ExtractLong();
      if n >= MAX_COUNT { return Abort; }
      var trace: seq<Frame> := [];
      ghost var start := pos;
      JoinedNone(DecAll(FrameDecoder(rd, data), pos, n));
      for i := 0 to n
        invariant DecAll(FrameDecoder(rd, data), start, n) == Joined(trace, DecAll(FrameDecoder(rd, data), pos, n - i))
      {
        DecStep(FrameDecoder(rd, data), trace, pos, n - i);
        var f := ExtractFrame();
        trace := trace + [f.value];
      }
      JoinedAll(trace, pos);
      r := Got(trace, pos);
    }

    method ExtractRegObj(withValues: bool) returns (r: Parsed<RegObj>)
      modifies this
      ensures r == RegDecoder(withValues, rd, data)(old(pos)) && (r.Got? ==> pos == r.pos)
    {
      hide UnpackDd;
      hide UnpackMemory;
      var regidx := ExtractLong();
      var size := ExtractLong();
      if size >= MAX_COUNT { return Abort; }
      if withValues {
        var relocate := ExtractLong();
        var value :- ExtractMemory(size);
        r := Got(RegObj(Signed(regidx), Signed(relocate), value.0), pos);
      } else {
        r := Got(RegObj(Signed(regidx), 0, seq(size, _ => 0)), pos);
      }
    }

    method ExtractRegObjs(withValues: bool) returns (r: Parsed<seq<RegObj>>)
      modifies this
      ensures r == DecList(rd, RegDecoder(withValues, rd, data), data, old(pos)) && (r.Got? ==> pos == r.pos)
    {
      hide UnpackDd;
      hide DecRegObj;
      var n := ExtractLong();
      if n >= MAX_COUNT { return Abort; }
      var rs: seq<RegObj> := [];
      ghost var start := pos;
      ghost var dec := RegDecoder(withValues, rd, data);
      JoinedNone(DecAll(dec, pos, n));
      for i := 0 to n
        invariant DecAll(dec, start, n) == Joined(rs, DecAll(dec, pos, n - i))
      {
        DecStep(dec, rs, pos, n - i);
        var o :- ExtractRegObj(withValues);
        rs := rs + [o.0];
      }
      JoinedAll(rs, pos);
      r := Got(rs, pos);
    }

    method ExtractBlock() returns (r: Parsed<seq<byte>>)
      modifies this
      ensures r == DecBlock(rd, data, old(pos)) && (r.Got? ==> pos == r.pos)
    {
      hide UnpackDd;
      var n := ExtractLong();
      if n >= MAX_COUNT { return Abort; }
      r := ExtractMemory(n);
    }

    method ExtractAppcall(wantRet: bool) returns (r: Parsed<Appcall>)
      modifies this
      ensures r == DecAppcall(rd, wantRet, data, old(pos)) && (r.Got? ==> pos == r.pos)
    {
      hide DecList;
      hide DecBlock;
      hide UnpackEa;
      var regargs :- ExtractRegObjs(true);
      var image :- ExtractBlock();
      var base := ExtractEa64();
      var ri :- ExtractBlock();
      var stkargs := RelObj(image.0, base, ri.0);
      if wantRet {
        var retregs :- ExtractRegObjs(false);
        r := Got(Appcall(regargs.0, stkargs, Some(retregs.0)), pos);
      } else {
        r := Got(Appcall(regargs.0, stkargs, None), pos);
      }
    }

    method ExtractRegVal() returns (r: Parsed<RegVal>)
      modifies this
      ensures r == DecRegVal(rd, data, old(pos)) && (r.Got? ==> pos == r.pos)
    {
      hide UnpackDd;
      hide UnpackDq;
      hide UnpackMemory;
      hide DecBlock;
      var tag := ExtractLong();
      if tag == RVT_INT {
        var x := ExtractUint64();
        r := Got(IntVal(Down(x)), pos);
      } else if tag == RVT_FLOAT {
        var f :- ExtractMemory(FLOAT_SIZE);
        r := Got(FloatVal(f.0), pos);
      } else {
        var b :- ExtractBlock();
        r := Got(CustomVal(0, b.0), pos);
      }
    }

    // The register values are filled in place.
    method ExtractRegVals(values: array<RegVal>, regmap: Option<seq<bv8>>) returns (ok: bool)
      requires CoversAll(regmap, values.Length)
      modifies this, values
      ensures var r := DecRegVals(rd, data, old(pos), old(values[..]), regmap, 0);
              ok == r.Got? && (ok ==> values[..] == r.value && pos == r.pos)
    {
      hide DecRegVal;
      hide TestBit;
      var i := 0;
      ghost var goal := DecRegVals(rd, data, pos, values[..], regmap, 0);
      while i < values.Length && pos < |data|
        invariant i <= values.Length
        invariant DecRegVals(rd, data, pos, values[..], regmap, i) == goal
      {
        if Wanted(regmap, i) {
          var r := ExtractRegVal();
          if r.Abort? { return false; }
          ghost var was := values[..];
          values[i] := r.value;
          assert values[..] == was[i := r.value];
        }
        i := i + 1;
      }
      ok := true;
    }
  }
}
