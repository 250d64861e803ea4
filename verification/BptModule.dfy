/** The breakpoint table of the debugger module, working on process memory through the
    word-granular accesses, and what a batch of additions and its deletion come to. */
module BptModule {
  import opened DebugEvents
  import opened LeastElement
  import opened WordMemory
  import opened SoftBreakpoints
  import opened BptOverlay

  class BptTable {
    const memory: ProcessMemory
    const arm: bool
    var bpts: map<word, SoftBpt>
    var removed: set<word>

    predicate Valid()
      reads this, memory
    {
      memory.Valid()
    }

    function State(): Soft
      reads this, memory
    {
      Soft(memory.mem, bpts, removed)
    }

    // Does e describe the process as it is?
    predicate Describes(e: Env)
      reads memory
    {
      e.alive == (!memory.exited && memory.hasProcess) && |e.junk| == SAVED_SIZE
    }

    constructor (memory: ProcessMemory, arm: bool)
      requires memory.Valid()
      ensures Valid() && this.memory == memory && this.arm == arm
      ensures State() == Soft(memory.mem, map[], {})
    {
      this.memory, this.arm, bpts, removed := memory, arm, map[], {};
    }

    // dbg_read_memory into a buffer that holds fill.
    method Read(ea: word, fill: seq<bv8>, e: Env) returns (n: nat, buf: seq<bv8>)
      requires Valid() && Describes(e) && |fill| < 0x8000_0000
      ensures n == ReadCount(e, ea, |fill|) && buf == ReadInto(memory.mem, ea, fill, e)
    {
      var buffer := new bv8[|fill|](i requires 0 <= i < |fill| => fill[i]);
      assert buffer[..] == fill;
      n := memory.ReadMemory(ea, buffer, |fill|, e.faults);
      if e.alive { ReadStopsOnce(e.faults, ea, |fill|, n, ReadDone(e.faults, ea, |fill|)); }
      buf := buffer[..];
      assert buffer[..] == buffer[..n] + buffer[n..];
    }

    // dbg_write_memory; were all bytes written?
    method Write(ea: word, buf: seq<bv8>, e: Env) returns (ok: bool)
      requires Valid() && Describes(e) && |buf| < 0x8000_0000
      modifies memory`mem
      ensures Valid() && memory.mem == Poked(old(memory.mem), ea, buf, e)
      ensures ok <==> WriteCount(e, ea, |buf|) == |buf|
    {
      var junk: bv32 := *;
      var n, done := memory.WriteMemory(ea, buf, e.faults, junk);
      if e.alive { WriteStopsOnce(e.faults, ea, |buf|, done, WriteDone(e.faults, ea, |buf|)); }
      ok := n == |buf|;
    }

    method ChooseCode(ea: word, len: int, e: Env) returns (code: Option<seq<bv8>>)
      requires Valid() && Describes(e)
      ensures code == BptCode(arm, len, Opcode(State(), ea, e))
    {
      if arm && len < 0 {
        var n, opcode := Read(ea, [0, 0], e);
        assert n == 2 ==> opcode == Slice(memory.mem, ea, 2);
        code := Some(if n == 2 && LooksLikeThumb(opcode) then THUMB16_BPT else ARM_BPT_CODE);
      } else if arm && len == 2 {
        code := Some(THUMB16_BPT);
      } else if arm && len == 2 + USE_THUMB32_BPT {
        code := Some(THUMB32_BPT);
      } else {
        var n := if len < 0 then |DefaultCode(arm)| else len;
        code := if 0 < n <= |DefaultCode(arm)| then Some(DefaultCode(arm)[..n]) else None;
        assert DefaultCode(arm)[..|DefaultCode(arm)|] == DefaultCode(arm);
      }
    }

    method DbgAddBpt(soft: bool, ea: word, len: int, e: Env) returns (ok: bool)
      requires Valid() && Describes(e) && (soft ==> ValidLen(arm, len))
      modifies this, memory`mem
      ensures Valid() && (State(), ok) == DbgAdd(old(State()), arm, soft, ea, len, e)
    {
      if soft {
        var code := ChooseCode(ea, len, e);
        ValidLenHasCode(arm, len, Opcode(State(), ea, e));
        ok := AddSoft(ea, code.value, e);
        if ok { return; }
      }
      ok := !arm && e.hw;
    }

    method AddSoft(ea: word, code: seq<bv8>, e: Env) returns (ok: bool)
      requires Valid() && Describes(e) && 0 < |code| <= 4
      modifies this, memory`mem
      ensures Valid() && (State(), ok) == Add(old(State()), ea, code, e)
    {
      ok := false;
      var n, saved := Read(ea, e.junk[..|code|], e);
      if n > 0 {
        ok := Write(ea, code, e);
        if ok {
          bpts := bpts[ea := SoftBpt(saved, code)];
          removed := removed - {ea};
        }
      }
    }

    method DbgDelBpt(ea: word, orig: seq<bv8>, len: int, e: Env) returns (ok: bool)
      requires Valid() && Describes(e) && len <= |orig| < 0x8000_0000
      modifies this, memory`mem
      ensures Valid() && (State(), ok) == DbgDel(old(State()), arm, ea, orig, len, e)
    {
      if orig != [] {
        if len > 0 {
          ok := Write(ea, orig[..len], e);
        } else {
          ok := len == 0 || (!memory.exited && memory.hasProcess);
        }
        if ok {
          removed := removed + {ea};
          return;
        }
      }
      ok := !arm && e.hw;
    }

    // The part of resume_app that deals with breakpoints.
    method ForgetRemoved()
      requires Valid()
      modifies this
      ensures Valid() && State() == Forget(old(State()))
    {
      var todo := removed;
      while todo != {}
        invariant Valid() && removed == old(removed) && todo <= removed
        invariant bpts == old(bpts) - (removed - todo)
      {
        var k :| k in todo;
        bpts := bpts - {k};
        todo := todo - {k};
      }
      removed := {};
    }

    method RestoreBroken(e: Env)
      requires Valid() && Describes(e) && SmallSaved(State())
      modifies this, memory`mem
      ensures Valid() && State() == Restore(old(State()), e)
    {
      var todo := bpts.Keys;
      ghost var goal := RestoreAll(State(), todo, e);
      while todo != {}
        invariant Valid() && todo <= bpts.Keys && bpts == old(bpts)
        invariant RestoreAll(State(), todo, e) == goal
        decreases |todo|
      {
        var k := PickLeast(todo);
        var _ := Write(k, bpts[k].saved, e);
        todo := todo - {k};
      }
      bpts := map[];
    }

    // debmod_t::read_bpt_orgbytes; were the bytes read?
    method ReadBytes(ea: word, n: nat, cont: bool, e: Env) returns (ok: bool, buf: seq<bv8>)
      requires Valid() && Describes(e) && n <= 4
      ensures ok <==> cont || ReadCount(e, ea, n) > 0
      ensures buf == OrgBytes(State(), cont, ea, n, e)
    {
      ok, buf := true, ZEROS[..n];
      if !cont {
        var nread;
        nread, buf := Read(ea, buf, e);
        ok := nread > 0;
      }
    }

    // read_bpt_orgbytes as arm_debmod_t and linux_debmod_t override it.
    method ReadBptOrgbytes(ea: word, cont: bool, e: Env) returns (spot: Option<Spot>)
      requires Valid() && Describes(e)
      ensures spot == Locate(State(), arm, cont, ea, e)
    {
      var at, len := ea, |DefaultCode(arm)|;
      if arm && ea % 2 == 1 {
        at, len := ea - 1, 2;
      }
      var ok, buf := ReadBytes(at, len, cont, e);
      if !ok { return None; }
      if len == 2 {
        var opcode := buf[0] as bv16 | (buf[1] as bv16 << 8);
        if 29 <= opcode >> 11 <= 31 {
          var nread, rest := Read(At(at, 2), ZEROS[..2], e);
          if nread <= 0 { return None; }
          return Some(Spot(at, len + USE_THUMB32_BPT, buf + rest));
        }
      }
      return Some(Spot(at, len, buf));
    }

    // The addition part of dbg_update_bpts, for one entry.
    method AddOne(b: UpdateBpt, cont: bool, e: Env) returns (r: UpdateBpt)
      requires Valid() && Describes(e)
      modifies this, memory`mem
      ensures Valid() && (State(), r) == AddEntry(old(State()), arm, cont, b, e)
    {
      r := b;
      if b.code != BPT_OK { return; }
      var ea, len, buf := b.ea, b.size, b.orgbytes;
      if b.soft {
        var spot := ReadBptOrgbytes(b.ea, cont, e);
        if spot.None? { return b.(code := BPT_READ_ERROR); }
        ea, len, buf := spot.value.ea, spot.value.len, spot.value.orgbytes;
      }
      var ok := DbgAddBpt(b.soft, ea, len, e);
      r := if ok then b.(orgbytes := buf) else b.(code := BPT_WRITE_ERROR);
    }

    // dbg_update_bpts: the first nadd entries are added, the others deleted.
    method UpdateBpts(ubpts: array<UpdateBpt>, nadd: nat, cont: bool, envs: seq<Env>) returns (cnt: nat)
      requires Valid() && nadd <= ubpts.Length == |envs|
      requires AllJunk(envs) && forall i :: 0 <= i < |envs| ==> Describes(envs[i])
      requires AllDeletable(ubpts[nadd..])
      modifies this, memory`mem, ubpts
      ensures Valid()
      ensures var (s1, added) := AddEntries(old(State()), arm, cont, old(ubpts[..nadd]), envs[..nadd]);
              var (s2, gone) := DelEntries(s1, arm, old(ubpts[nadd..]), envs[nadd..]);
              State() == s2 && ubpts[..] == added + gone && cnt == CountOk(added) + CountOk(gone)
    {
      cnt := UpdateAdd(ubpts, nadd, cont, envs);
      label Added:
      ghost var added := ubpts[..nadd];
      var n := UpdateDel(ubpts, nadd, envs);
      cnt := cnt + n;
      assert ubpts[..] == ubpts[..nadd] + ubpts[nadd..];
    }

    method UpdateAdd(ubpts: array<UpdateBpt>, nadd: nat, cont: bool, envs: seq<Env>) returns (cnt: nat)
      requires Valid() && nadd <= ubpts.Length == |envs|
      requires AllJunk(envs) && forall i :: 0 <= i < |envs| ==> Describes(envs[i])
      modifies this, memory`mem, ubpts
      ensures Valid() && ubpts[nadd..] == old(ubpts[nadd..])
      ensures (State(), ubpts[..nadd]) == AddEntries(old(State()), arm, cont, old(ubpts[..nadd]), envs[..nadd])
      ensures cnt == CountOk(ubpts[..nadd])
    {
      cnt := 0;
      var i := 0;
      ghost var todo, es, tail, done := ubpts[..nadd], envs[..nadd], ubpts[nadd..], [];
      ghost var goal := AddEntries(State(), arm, cont, todo, es);
      Unwritten(ubpts[..], nadd, goal);
      while i < nadd
        invariant i == |done| && i + |todo| == nadd && es == envs[i..nadd] && AllJunk(es) && Valid()
        invariant ubpts[..] == done + (todo + tail)
        invariant goal == Continued(done, AddEntries(State(), arm, cont, todo, es))
        invariant cnt == CountOk(done)
      {
        var b := AddAt(ubpts, i, cont, envs[i], done, todo, tail, es);
        CountOkSnoc(done, b);
        done, todo, es := done + [b], todo[1..], es[1..];
        if b.code == BPT_OK { cnt := cnt + 1; }
        i := i + 1;
      }
      assert ubpts[..nadd] == done + [];
    }

    method UpdateDel(ubpts: array<UpdateBpt>, nadd: nat, envs: seq<Env>) returns (cnt: nat)
      requires Valid() && nadd <= ubpts.Length == |envs|
      requires AllJunk(envs) && forall i :: 0 <= i < |envs| ==> Describes(envs[i])
      requires AllDeletable(ubpts[nadd..])
      modifies this, memory`mem, ubpts
      ensures Valid() && ubpts[..nadd] == old(ubpts[..nadd])
      ensures (State(), ubpts[nadd..]) == DelEntries(old(State()), arm, old(ubpts[nadd..]), envs[nadd..])
      ensures cnt == CountOk(ubpts[nadd..])
    {
      cnt := 0;
      var i := nadd;
      ghost var todo, es, head, done := ubpts[nadd..], envs[nadd..], ubpts[..nadd], [];
      ghost var goal := DelEntries(State(), arm, todo, es);
      Unwritten(ubpts[..], nadd, goal);
      while i < ubpts.Length
        invariant i == |head + done| && i + |todo| == ubpts.Length && es == envs[i..] && AllDeletable(todo) && Valid()
        invariant ubpts[..] == head + done + todo
        invariant goal == Continued(done, DelEntries(State(), arm, todo, es))
        invariant cnt == CountOk(done)
      {
        var b := DelAt(ubpts, i, envs[i], head, done, todo, es);
        CountOkSnoc(done, b);
        SmallRest(todo);
        done, todo, es := done + [b], todo[1..], es[1..];
        if b.code == BPT_OK { cnt := cnt + 1; }
        i := i + 1;
      }
      WrittenAll(head, done, ubpts[..], goal);
    }

    // The bodies of the two loops: entry i is dealt with, the entries before and after stay.
    method AddAt(ubpts: array<UpdateBpt>, i: nat, cont: bool, e: Env,
                 ghost done: seq<UpdateBpt>, ghost todo: seq<UpdateBpt>, ghost tail: seq<UpdateBpt>, ghost es: seq<Env>)
      returns (b: UpdateBpt)
      requires Valid() && Describes(e) && i == |done| && todo != []
      requires ubpts[..] == done + (todo + tail) && |es| == |todo| && AllJunk(es) && e == es[0]
      modifies this, memory`mem, ubpts
      ensures Valid() && ubpts[..] == done + [b] + (todo[1..] + tail)
      ensures Continued(done, AddEntries(old(State()), arm, cont, todo, es))
              == Continued(done + [b], AddEntries(State(), arm, cont, todo[1..], es[1..]))
    {
      AddStep(done, State(), arm, cont, todo, es);
      Replaced(done, todo, tail, ubpts[..]);
      b := AddOne(ubpts[i], cont, e);
      ubpts[i] := b;
    }

    method DelAt(ubpts: array<UpdateBpt>, i: nat, e: Env,
                 ghost head: seq<UpdateBpt>, ghost done: seq<UpdateBpt>, ghost todo: seq<UpdateBpt>, ghost es: seq<Env>)
      returns (b: UpdateBpt)
      requires Valid() && Describes(e) && i == |head + done| && todo != []
      requires ubpts[..] == head + done + todo && |es| == |todo| && AllDeletable(todo) && e == es[0]
      modifies this, memory`mem, ubpts
      ensures Valid() && ubpts[..] == head + (done + [b]) + todo[1..]
      ensures Continued(done, DelEntries(old(State()), arm, todo, es))
              == Continued(done + [b], DelEntries(State(), arm, todo[1..], es[1..]))
    {
      DelStep(done, State(), arm, todo, es);
      assert head + done + todo == head + done + (todo + []) && todo[1..] + [] == todo[1..];
      Replaced(head + done, todo, [], ubpts[..]);
      b := DelOne(ubpts[i], e);
      ubpts[i] := b;
      assert head + (done + [b]) == head + done + [b];
    }

    // The deletion part, for one entry.
    method DelOne(b: UpdateBpt, e: Env) returns (r: UpdateBpt)
      requires Valid() && Describes(e) && Deletable(b)
      modifies this, memory`mem
      ensures Valid() && (State(), r) == DelEntry(old(State()), arm, b, e)
    {
      var len := if b.soft then |b.orgbytes| else if b.orgbytes == [] then 0 else b.size;
      var ok := DbgDelBpt(b.ea, b.orgbytes, len, e);
      r := b.(code := if ok then BPT_OK else BPT_WRITE_ERROR);
    }
  }

  // Entry i of a batch is the first of the entries not done yet.
  lemma Replaced(done: seq<UpdateBpt>, todo: seq<UpdateBpt>, tail: seq<UpdateBpt>, a: seq<UpdateBpt>)
    requires todo != [] && a == done + (todo + tail)
    ensures a[|done|] == todo[0]
    ensures forall b :: a[|done| := b] == done + [b] + (todo[1..] + tail)
  {
    forall b ensures a[|done| := b] == done + [b] + (todo[1..] + tail) {
      assert |a| == |done| + 1 + |todo[1..] + tail|;
    }
  }

  lemma Unwritten(a: seq<UpdateBpt>, nadd: nat, goal: (Soft, seq<UpdateBpt>))
    requires nadd <= |a|
    ensures Continued([], goal) == goal
    ensures a == [] + (a[..nadd] + a[nadd..]) && a == a[..nadd] + [] + a[nadd..]
  {
    assert [] + goal.1 == goal.1;
  }

  lemma WrittenAll(head: seq<UpdateBpt>, done: seq<UpdateBpt>, a: seq<UpdateBpt>, goal: (Soft, seq<UpdateBpt>))
    requires a == head + done + []
    ensures a[..|head|] == head && a[|head|..] == done && done + [] == done
  {
  }

  lemma SmallRest(bs: seq<UpdateBpt>)
    requires AllDeletable(bs) && bs != []
    ensures AllDeletable(bs[1..])
  {
  }

  lemma AddStep(done: seq<UpdateBpt>, s: Soft, arm: bool, cont: bool, bs: seq<UpdateBpt>, es: seq<Env>)
    requires IsImage(s.mem) && bs != [] && |bs| == |es| && AllJunk(es)
    ensures var (s1, b1) := AddEntry(s, arm, cont, bs[0], es[0]);
            Continued(done, AddEntries(s, arm, cont, bs, es))
            == Continued(done + [b1], AddEntries(s1, arm, cont, bs[1..], es[1..]))
  {
    var (s1, b1) := AddEntry(s, arm, cont, bs[0], es[0]);
    var rest := AddEntries(s1, arm, cont, bs[1..], es[1..]).1;
    assert done + ([b1] + rest) == (done + [b1]) + rest;
  }

  lemma DelStep(done: seq<UpdateBpt>, s: Soft, arm: bool, bs: seq<UpdateBpt>, es: seq<Env>)
    requires IsImage(s.mem) && bs != [] && |bs| == |es| && AllDeletable(bs)
    ensures var (s1, b1) := DelEntry(s, arm, bs[0], es[0]);
            Continued(done, DelEntries(s, arm, bs, es)) == Continued(done + [b1], DelEntries(s1, arm, bs[1..], es[1..]))
  {
    var (s1, b1) := DelEntry(s, arm, bs[0], es[0]);
    var rest := DelEntries(s1, arm, bs[1..], es[1..]).1;
    assert done + ([b1] + rest) == (done + [b1]) + rest;
  }

  // The result of a batch whose first entries came out as done.
  function Continued(done: seq<UpdateBpt>, rest: (Soft, seq<UpdateBpt>)): (Soft, seq<UpdateBpt>) {
    (rest.0, done + rest.1)
  }

  lemma {:induction false} CountOkSnoc(bs: seq<UpdateBpt>, b: UpdateBpt)
    ensures CountOk(bs + [b]) == CountOk(bs) + if b.code == BPT_OK then 1 else 0
    decreases |bs|
  {
    if bs != [] {
      assert (bs + [b])[1..] == bs[1..] + [b];
      CountOkSnoc(bs[1..], b);
    }
  }
}
