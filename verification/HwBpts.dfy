/** The x86 debug-register allocator: four slots, the control register they share, and
    which breakpoint a debug trap is attributed to. */
module HwBpts {
  import opened DebugEvents
  import opened DebugRegisters

  const MAX_BPT: nat := 4

  datatype BptType = OldExec | Write | Read | RdWr | Soft | Exec

  // How a type is encoded; execution is 0 on x86.
  function TypeCode(t: BptType): bv32 {
    match t
    case OldExec => 0
    case Write => 1
    case Read => 2
    case RdWr => 3
    case Soft => 4
    case Exec => 0
  }

  function LengthCode(len: int): bv32 {
    if len == 2 then 1 else if len == 4 then 3 else 0
  }

  // A slot; the length code is kept in DR7 only.
  datatype Slot = Slot(ea: word, kind: BptType, len: bv32)

  datatype Hw = Hw(slots: seq<Slot>, dr7: bv32)

  const EMPTY := Slot(BADADDR, OldExec, 0)

  const INITIAL := Hw([EMPTY, EMPTY, EMPTY, EMPTY], EXACT)

  function EntryOf(s: Slot, i: nat): bv32 {
    if s.ea == BADADDR then 0 else Entry(TypeCode(s.kind), s.len, i)
  }

  predicate Shaped(h: Hw) {
    |h.slots| == MAX_BPT && forall i :: 0 <= i < MAX_BPT ==> h.slots[i].len < 4
  }

  function Encoded(slots: seq<Slot>): bv32
    requires |slots| == MAX_BPT
  {
    Join(EntryOf(slots[0], 0), EntryOf(slots[1], 1), EntryOf(slots[2], 2), EntryOf(slots[3], 3))
  }

  // DR7 says exactly what the slots hold.
  predicate Faithful(h: Hw) {
    Shaped(h) && h.dr7 == Encoded(h.slots)
  }

  lemma EntryConfined(s: Slot, i: nat)
    requires s.len < 4 && i < MAX_BPT
    ensures Confined(EntryOf(s, i), i)
  {
    if s.ea != BADADDR {
      var k := TypeCode(s.kind);
      assert k < 16;
      if i == 0 { Confined0(k, s.len); } else if i == 1 { Confined1(k, s.len); }
      else if i == 2 { Confined2(k, s.len); } else { Confined3(k, s.len); }
    }
  }

  lemma AllConfined(h: Hw)
    requires Shaped(h)
    ensures forall i :: 0 <= i < MAX_BPT ==> Confined(EntryOf(h.slots[i], i), i)
  {
    forall i | 0 <= i < MAX_BPT ensures Confined(EntryOf(h.slots[i], i), i) { EntryConfined(h.slots[i], i); }
  }

  // ---------------------------------------------------------------- slots

  function SlotFrom(slots: seq<Slot>, ea: word, t: BptType, i: nat): (r: int)
    requires i <= |slots|
    ensures -1 <= r < |slots|
    ensures r >= 0 ==> i <= r && slots[r].ea == BADADDR
    ensures r >= 0 ==> forall j :: i <= j < r ==> slots[j].ea != BADADDR && !(slots[j].ea == ea && slots[j].kind == t)
    decreases |slots| - i
  {
    if i == |slots| then -1
    else if slots[i].ea == ea && slots[i].kind == t then -1
    else if slots[i].ea == BADADDR then i
    else SlotFrom(slots, ea, t, i + 1)
  }

  // find_hwbpt_slot: the first empty slot, unless the same breakpoint comes before it.
  function FindSlot(h: Hw, ea: word, t: BptType): int {
    SlotFrom(h.slots, ea, t, 0)
  }

  function Added(h: Hw, ea: word, t: BptType, len: int): Hw {
    var i := FindSlot(h, ea, t);
    if i < 0 then h
    else
      h.(slots := h.slots[i := Slot(ea, t, LengthCode(len))],
         dr7 := Or(h.dr7, Entry(TypeCode(t), LengthCode(len), i)))
  }

  function HolderFrom(slots: seq<Slot>, ea: word, t: BptType, i: nat): (r: int)
    requires i <= |slots|
    ensures -1 <= r < |slots|
    ensures r >= 0 ==> slots[r].ea == ea && slots[r].kind == t
    ensures r < 0 ==> forall j :: i <= j < |slots| ==> !(slots[j].ea == ea && slots[j].kind == t)
    decreases |slots| - i
  {
    if i == |slots| then -1
    else if slots[i].ea == ea && slots[i].kind == t then i
    else HolderFrom(slots, ea, t, i + 1)
  }

  function Deleted(h: Hw, ea: word, t: BptType): Hw {
    var i := HolderFrom(h.slots, ea, t, 0);
    if i < 0 then h
    else h.(slots := h.slots[i := h.slots[i].(ea := BADADDR)], dr7 := Cleared(h.dr7, i))
  }

  // ---------------------------------------------------------------- the control register

  lemma EmptyEntry(s: Slot, i: nat)
    ensures s.ea == BADADDR ==> EntryOf(s, i) == 0
    ensures s.ea != BADADDR ==> EntryOf(s, i) == Entry(TypeCode(s.kind), s.len, i)
  {
  }

  lemma SetEntry(h: Hw, i: nat, s: Slot)
    requires Faithful(h) && i < MAX_BPT && h.slots[i].ea == BADADDR && s.ea != BADADDR
    ensures Or(h.dr7, Entry(TypeCode(s.kind), s.len, i)) == Encoded(h.slots[i := s])
  {
    hide Or;
    hide Entry;
    hide Join;
    hide EntryOf;
    EmptyEntry(h.slots[i], i);
    EmptyEntry(s, i);
    var e0, e1, e2, e3 := EntryOf(h.slots[0], 0), EntryOf(h.slots[1], 1), EntryOf(h.slots[2], 2), EntryOf(h.slots[3],
        3);
    var x := EntryOf(s, i);
    if i == 0 { Set0(x, e1, e2, e3); } else if i == 1 { Set1(x, e0, e2, e3); }
    else if i == 2 { Set2(x, e0, e1, e3); } else { Set3(x, e0, e1, e2); }
  }

  lemma OrThree(d: bv32, kind: bv32, length: bv32, i: nat)
    ensures d | AtEnable(1, i) | AtType(kind, i) | AtLength(length, i) == Or(d, Entry(kind, length, i))
  {
    hide AtEnable;
    hide AtType;
    hide AtLength;
  }

  lemma AddFaithful(h: Hw, ea: word, t: BptType, len: int)
    requires Faithful(h) && ea != BADADDR
    ensures Faithful(Added(h, ea, t, len))
  {
    hide Entry;
    hide Encoded;
    hide TypeCode;
    hide Or;
    var i := FindSlot(h, ea, t);
    if i >= 0 {
      SetEntry(h, i, Slot(ea, t, LengthCode(len)));
    }
  }

  lemma ClearEntry(h: Hw, i: nat)
    requires Faithful(h) && i < MAX_BPT
    ensures Cleared(h.dr7, i) == Encoded(h.slots[i := h.slots[i].(ea := BADADDR)])
  {
    hide Entry;
    hide Join;
    hide Cleared;
    hide Confined;
    AllConfined(h);
    var e0, e1, e2, e3 := EntryOf(h.slots[0], 0), EntryOf(h.slots[1], 1), EntryOf(h.slots[2], 2), EntryOf(h.slots[3],
        3);
    if i == 0 { Clear0(e0, e1, e2, e3); } else if i == 1 { Clear1(e0, e1, e2, e3); }
    else if i == 2 { Clear2(e0, e1, e2, e3); } else { Clear3(e0, e1, e2, e3); }
  }

  lemma DeleteFaithful(h: Hw, ea: word, t: BptType)
    requires Faithful(h)
    ensures Faithful(Deleted(h, ea, t))
  {
    hide Cleared;
    hide Encoded;
    var i := HolderFrom(h.slots, ea, t, 0);
    if i >= 0 { ClearEntry(h, i); }
  }

  datatype Op = OpAdd(ea: word, kind: BptType, len: int) | OpDelete(ea: word, kind: BptType) | OpCleanup

  function Apply(h: Hw, op: Op): Hw {
    match op
    case OpAdd(ea, t, len) => Added(h, ea, t, len)
    case OpDelete(ea, t) => Deleted(h, ea, t)
    case OpCleanup => INITIAL
  }

  function Run(h: Hw, ops: seq<Op>): Hw
    decreases |ops|
  {
    if ops == [] then h else Run(Apply(h, ops[0]), ops[1..])
  }

  predicate RealAddresses(ops: seq<Op>) {
    forall i :: 0 <= i < |ops| && ops[i].OpAdd? ==> ops[i].ea != BADADDR
  }

  lemma InitialFaithful()
    ensures Faithful(INITIAL)
  {
  }

  /** Over every run of additions and deletions DR7 says exactly what the slots hold. */
  lemma {:induction false} RunFaithful(h: Hw, ops: seq<Op>)
    requires Faithful(h) && RealAddresses(ops)
    ensures Faithful(Run(h, ops))
    decreases |ops|
  {
    hide Faithful;
    hide Added;
    hide Deleted;
    if ops != [] {
      match ops[0] {
        case OpAdd(ea, t, len) => AddFaithful(h, ea, t, len);
        case OpDelete(ea, t) => DeleteFaithful(h, ea, t);
        case OpCleanup => InitialFaithful();
      }
      assert forall i :: 0 <= i < |ops[1..]| ==> ops[1..][i] == ops[i + 1];
      RunFaithful(Apply(h, ops[0]), ops[1..]);
    }
  }

  /** What the processor reads from such a register: an empty slot has no bit set; another
      one is locally enabled, with its type and length. */
  lemma FieldsOfSlot(h: Hw, i: nat)
    requires Faithful(h) && i < MAX_BPT
    ensures h.slots[i].ea == BADADDR ==> EnablePair(h.dr7, i) == 0 && Nibble(h.dr7, i) == 0
    ensures h.slots[i].ea != BADADDR ==>
              EnablePair(h.dr7, i) == 1 && Nibble(h.dr7, i) == TypeCode(h.slots[i].kind) | (h.slots[i].len << 2)
  {
    hide Join;
    hide Entry;
    hide Confined;
    AllConfined(h);
    var e0, e1, e2, e3 := EntryOf(h.slots[0], 0), EntryOf(h.slots[1], 1), EntryOf(h.slots[2], 2), EntryOf(h.slots[3],
        3);
    FieldOfEntry(h.slots[i], i);
    if i == 0 { Read0(e0, e1, e2, e3); } else if i == 1 { Read1(e0, e1, e2, e3); }
    else if i == 2 { Read2(e0, e1, e2, e3); } else { Read3(e0, e1, e2, e3); }
  }

  lemma FieldOfEntry(s: Slot, i: nat)
    requires s.len < 4 && i < MAX_BPT
    ensures s.ea == BADADDR ==> EnablePair(EntryOf(s, i), i) == 0 && Nibble(EntryOf(s, i), i) == 0
    ensures s.ea != BADADDR ==>
              EnablePair(EntryOf(s, i), i) == 1 && Nibble(EntryOf(s, i), i) == TypeCode(s.kind) | (s.len << 2)
  {
    if s.ea != BADADDR {
      hide Entry;
      var k := TypeCode(s.kind);
      assert k < 16;
      if i == 0 { ReadEntry0(k, s.len); } else if i == 1 { ReadEntry1(k, s.len); }
      else if i == 2 { ReadEntry2(k, s.len); } else { ReadEntry3(k, s.len); }
    }
  }

  /** The processor sees the type and length that were asked for, except for BPT_SOFT, which
      comes here when a software breakpoint cannot be written: its code 4 is a length bit. */
  lemma TypeSeenIff(h: Hw, i: nat)
    requires Faithful(h) && i < MAX_BPT && h.slots[i].ea != BADADDR
    ensures Nibble(h.dr7, i) & 3 == TypeCode(h.slots[i].kind) <==> h.slots[i].kind != Soft
    ensures h.slots[i].kind != Soft ==> Nibble(h.dr7, i) >> 2 == h.slots[i].len
  {
    hide Join;
    hide Nibble;
    hide EnablePair;
    FieldsOfSlot(h, i);
    LowBits(TypeCode(h.slots[i].kind), h.slots[i].len);
  }

  // The fields of an entry of DR7: 0 for execution, 1 for writes, 3 for any access (and 2 for
  // reads, which the processor takes for I/O); 0, 1 and 3 for one, two and four bytes.
  function TypeBits(t: BptType): bv32 {
    if t == Write then 1 else if t == Read then 2 else if t == RdWr then 3 else if t == Soft then 4 else 0
  }

  /** An addition shows in DR7 as its type and length, in the slot that was empty, which is
      enabled. */
  lemma AddedBits(h: Hw, ea: word, t: BptType, len: int)
    requires Faithful(h) && ea != BADADDR && FindSlot(h, ea, t) >= 0
    ensures var i, r := FindSlot(h, ea, t), Added(h, ea, t, len);
            && r.slots == h.slots[i := r.slots[i]] && h.slots[i].ea == BADADDR && r.slots[i].ea == ea
            && EnablePair(r.dr7, i) == 1
            && Nibble(r.dr7, i) == TypeBits(t) | ((if len == 2 then 1 else if len == 4 then 3 else 0) << 2)
  {
    hide Nibble;
    hide EnablePair;
    hide Or;
    hide Entry;
    hide Encoded;
    AddFaithful(h, ea, t, len);
    FieldsOfSlot(Added(h, ea, t, len), FindSlot(h, ea, t));
  }

  /** A deletion empties the first slot that holds the breakpoint, of type and address both,
      and takes it out of DR7; the other slots stay, and without such a slot all do. */
  lemma DeletedIff(h: Hw, ea: word, t: BptType, i: nat)
    requires Faithful(h) && ea != BADADDR && i < MAX_BPT
    ensures var r := Deleted(h, ea, t);
            var first := h.slots[i].ea == ea && h.slots[i].kind == t
                         && forall j :: 0 <= j < i ==> !(h.slots[j].ea == ea && h.slots[j].kind == t);
            && |r.slots| == MAX_BPT
            && (r.slots[i].ea == BADADDR && h.slots[i].ea != BADADDR <==> first)
            && (!first ==> r.slots[i] == h.slots[i])
            && (first ==> EnablePair(r.dr7, i) == 0 && Nibble(r.dr7, i) == 0)
  {
    hide Nibble;
    hide EnablePair;
    hide Cleared;
    hide Encoded;
    var k := HolderFrom(h.slots, ea, t, 0);
    HolderFirst(h.slots, ea, t, 0);
    DeleteFaithful(h, ea, t);
    FieldsOfSlot(Deleted(h, ea, t), i);
  }

  lemma {:induction false} HolderFirst(slots: seq<Slot>, ea: word, t: BptType, i: nat)
    requires i <= |slots|
    ensures forall j :: i <= j < HolderFrom(slots, ea, t, i) ==> !(slots[j].ea == ea && slots[j].kind == t)
    decreases |slots| - i
  {
    if i < |slots| && !(slots[i].ea == ea && slots[i].kind == t) { HolderFirst(slots, ea, t, i + 1); }
  }

  lemma ExactKept(h: Hw)
    requires Faithful(h)
    ensures h.dr7 & EXACT == EXACT
  {
    var e0, e1, e2, e3 := EntryOf(h.slots[0], 0), EntryOf(h.slots[1], 1), EntryOf(h.slots[2], 2), EntryOf(h.slots[3],
        3);
    ReadExact(e0, e1, e2, e3);
  }

  // A slot that is empty before and after contributes nothing.
  lemma EmptySwap(h: Hw, i: nat, s: Slot)
    requires Faithful(h) && i < MAX_BPT && h.slots[i].ea == BADADDR && s.ea == BADADDR
    ensures Encoded(h.slots[i := s]) == h.dr7
  {
    hide Join;
    hide Entry;
    hide EntryOf;
    EmptyEntry(h.slots[i], i);
    EmptyEntry(s, i);
  }

  lemma EnableSet(d: bv32, kind: bv32, length: bv32, i: nat)
    requires i < MAX_BPT && EnablePair(d, i) == 0
    ensures Or(d, Entry(kind, length, i)) != d
  {
    hide Or;
    hide Entry;
    hide EnablePair;
    if i == 0 { EnableSet0(d, kind, length); } else if i == 1 { EnableSet1(d, kind, length); }
    else if i == 2 { EnableSet2(d, kind, length); } else { EnableSet3(d, kind, length); }
  }

  /** A slot taken for BADADDR would still count as empty, but DR7 would enable it: an
      addition keeps the register faithful exactly when the address is a real one. */
  lemma AddFaithfulIff(h: Hw, ea: word, t: BptType, len: int)
    requires Faithful(h) && FindSlot(h, ea, t) >= 0
    ensures Faithful(Added(h, ea, t, len)) <==> ea != BADADDR
  {
    hide Entry;
    hide Or;
    hide EnablePair;
    hide Nibble;
    hide Encoded;
    hide TypeCode;
    if ea != BADADDR {
      AddFaithful(h, ea, t, len);
    } else {
      var i := FindSlot(h, ea, t);
      FieldsOfSlot(h, i);
      EnableSet(h.dr7, TypeCode(t), LengthCode(len), i);
      EmptySwap(h, i, Slot(ea, t, LengthCode(len)));
    }
  }

  /** An addition is refused exactly when every slot is taken or the same breakpoint comes
      before the first empty one; so a breakpoint behind an empty slot can be doubled. */
  lemma RefusedIff(h: Hw, ea: word, t: BptType)
    requires Shaped(h) && ea != BADADDR
    ensures FindSlot(h, ea, t) < 0 <==>
            forall j :: 0 <= j < MAX_BPT && h.slots[j].ea == BADADDR ==>
              exists k :: 0 <= k < j && h.slots[k].ea == ea && h.slots[k].kind == t
  {
    var r := FindSlot(h, ea, t);
    if r >= 0 { assert h.slots[r].ea == BADADDR; } else { SlotFromNone(h.slots, ea, t, 0); }
  }

  lemma {:induction false} SlotFromNone(slots: seq<Slot>, ea: word, t: BptType, i: nat)
    requires i <= |slots| && ea != BADADDR && SlotFrom(slots, ea, t, i) < 0
    ensures forall j :: i <= j < |slots| && slots[j].ea == BADADDR ==>
              exists k :: i <= k < j && slots[k].ea == ea && slots[k].kind == t
    decreases |slots| - i
  {
    if i < |slots| && !(slots[i].ea == ea && slots[i].kind == t) { SlotFromNone(slots, ea, t, i + 1); }
  }

  /** Two adds, a delete of the first and the second add again: slots 0 and 1 hold the same. */
  lemma Doubled(a: word, b: word)
    requires a != b && a != BADADDR && b != BADADDR
    ensures var h := Run(INITIAL, [OpAdd(a, Write, 4), OpAdd(b, Write, 4), OpDelete(a, Write), OpAdd(b, Write, 4)]);
            |h.slots| == MAX_BPT && h.slots[0] == h.slots[1] == Slot(b, Write, 3)
  {
    var h1 := Apply(INITIAL, OpAdd(a, Write, 4));
    assert h1.slots == [Slot(a, Write, 3), EMPTY, EMPTY, EMPTY];
    var h2 := Apply(h1, OpAdd(b, Write, 4));
    assert SlotFrom(h1.slots, b, Write, 0) == SlotFrom(h1.slots, b, Write, 1) == 1;
    assert h2.slots == [Slot(a, Write, 3), Slot(b, Write, 3), EMPTY, EMPTY];
    var h3 := Apply(h2, OpDelete(a, Write));
    assert h3.slots == [Slot(BADADDR, Write, 3), Slot(b, Write, 3), EMPTY, EMPTY];
    var h4 := Apply(h3, OpAdd(b, Write, 4));
    var o4 := OpAdd(b, Write, 4);
    assert Run(h3, [o4]) == h4;
    assert Run(h2, [OpDelete(a, Write), o4]) == h4;
    assert Run(h1, [OpAdd(b, Write, 4), OpDelete(a, Write), o4]) == h4;
  }

  // Does no breakpoint stand in two slots?
  predicate Unique(slots: seq<Slot>) {
    forall i, j :: 0 <= i < j < |slots| && slots[i].ea != BADADDR ==>
      !(slots[i].ea == slots[j].ea && slots[i].kind == slots[j].kind)
  }

  /** An addition keeps the breakpoints unique exactly when it is refused or the slots behind
      the empty one it takes do not hold the same breakpoint already. */
  lemma UniqueKeptIff(h: Hw, ea: word, t: BptType, len: int)
    requires Shaped(h) && Unique(h.slots) && ea != BADADDR
    ensures var r := FindSlot(h, ea, t);
            Unique(Added(h, ea, t, len).slots) <==>
            r < 0 || forall j :: r < j < MAX_BPT ==> !(h.slots[j].ea == ea && h.slots[j].kind == t)
  {
    hide LengthCode;
    hide Or;
    hide Entry;
    var r := FindSlot(h, ea, t);
    if r >= 0 {
      var s := Added(h, ea, t, len).slots;
      if Unique(s) {
        forall j | r < j < MAX_BPT ensures !(h.slots[j].ea == ea && h.slots[j].kind == t) {
          assert s[j] == h.slots[j] && s[r].ea == ea;
        }
      }
    }
  }

  lemma UniqueDeleted(h: Hw, ea: word, t: BptType)
    requires Shaped(h) && Unique(h.slots)
    ensures Unique(Deleted(h, ea, t).slots)
  {
    hide Cleared;
  }

  // ---------------------------------------------------------------- traps

  // What set_hwbpts writes to the address registers of a thread: no breakpoint is 0.
  function Refreshed(h: Hw): (drs: seq<word>)
    ensures |drs| == |h.slots|
  {
    seq(|h.slots|, i requires 0 <= i < |h.slots| => if h.slots[i].ea == BADADDR then 0 else h.slots[i].ea)
  }

  // Does the status register DR6 report breakpoint i?
  predicate Reported(dr6: bv32, i: nat) {
    dr6 & (if i == 0 then 1 else if i == 1 then 2 else if i == 2 then 4 else 8) != 0
  }

  lemma ReportedIff(dr6: bv32, i: nat)
    requires i < MAX_BPT
    ensures Reported(dr6, i) <==> (dr6 >> (i as bv32)) & 1 == 1
  {
    if i == 0 { assert (dr6 & 1 != 0) <==> (dr6 >> 0) & 1 == 1; }
    else if i == 1 { assert (dr6 & 2 != 0) <==> (dr6 >> 1) & 1 == 1; }
    else if i == 2 { assert (dr6 & 4 != 0) <==> (dr6 >> 2) & 1 == 1; }
    else { assert (dr6 & 8 != 0) <==> (dr6 >> 3) & 1 == 1; }
  }

  function HandledFrom(h: Hw, dr6: bv32, drs: seq<word>, i: nat): Option<word>
    requires i <= |h.slots| == |drs|
    decreases |h.slots| - i
  {
    if i == |h.slots| then None
    else if Reported(dr6, i) && h.slots[i].ea == drs[i] then Some(h.slots[i].ea)
    else HandledFrom(h, dr6, drs, i + 1)
  }

  ghost predicate FirstReported(h: Hw, dr6: bv32, from: nat, i: nat)
    requires from <= i < |h.slots|
  {
    && Reported(dr6, i) && h.slots[i].ea != BADADDR
    && forall j :: from <= j < i ==> !(Reported(dr6, j) && h.slots[j].ea != BADADDR)
  }

  /** After a refresh handle_hwbpt reports the first slot in use whose status bit is set,
      never an empty one, and nothing exactly when there is no such slot. */
  lemma {:induction false} HandledAfterRefresh(h: Hw, dr6: bv32, i: nat)
    requires i <= |h.slots|
    ensures var r := HandledFrom(h, dr6, Refreshed(h), i);
            && (r.None? <==> forall j :: i <= j < |h.slots| ==> !(Reported(dr6, j) && h.slots[j].ea != BADADDR))
            && (r.Some? ==> exists j :: i <= j < |h.slots| && FirstReported(h, dr6, i, j) && r.value == h.slots[j].ea)
    decreases |h.slots| - i
  {
    hide Reported;
    if i < |h.slots| {
      HandledAfterRefresh(h, dr6, i + 1);
      if Reported(dr6, i) && h.slots[i].ea == Refreshed(h)[i] {
        assert FirstReported(h, dr6, i, i);
      } else {
        var r := HandledFrom(h, dr6, Refreshed(h), i + 1);
        if r.Some? {
          var j :| i + 1 <= j < |h.slots| && FirstReported(h, dr6, i + 1, j) && r.value == h.slots[j].ea;
          assert FirstReported(h, dr6, i, j);
        }
      }
    }
  }

  // ---------------------------------------------------------------- the object

  function Joined(eas: seq<word>, kinds: seq<BptType>, lens: seq<bv32>): (s: seq<Slot>)
    requires |eas| == |kinds| == |lens|
    ensures |s| == |eas| && forall i :: 0 <= i < |s| ==> s[i] == Slot(eas[i], kinds[i], lens[i])
  {
    seq(|eas|, i requires 0 <= i < |eas| => Slot(eas[i], kinds[i], lens[i]))
  }

  lemma JoinedUpdate(eas: seq<word>, kinds: seq<BptType>, lens: seq<bv32>, i: nat, s: Slot)
    requires |eas| == |kinds| == |lens| && i < |eas|
    ensures Joined(eas[i := s.ea], kinds[i := s.kind], lens[i := s.len]) == Joined(eas, kinds, lens)[i := s]
  {
  }

  class PcDebmod {
    const hwbptEa: array<word>
    const hwbptType: array<BptType>
    var dr7: bv32
    ghost var lens: seq<bv32>

    ghost predicate Valid()
      reads this, hwbptEa, hwbptType
    {
      hwbptEa.Length == hwbptType.Length == |lens| == MAX_BPT
    }

    ghost function State(): (h: Hw)
      requires Valid()
      reads this, hwbptEa, hwbptType
    {
      Hw(Joined(hwbptEa[..], hwbptType[..], lens), dr7)
    }

    constructor ()
      ensures Valid() && State() == INITIAL && fresh(hwbptEa) && fresh(hwbptType)
    {
      hwbptEa, hwbptType := new word[MAX_BPT], new BptType[MAX_BPT];
      dr7, lens := 0, [0, 0, 0, 0];
      new;
      Cleanup();
    }

    method Cleanup()
      requires Valid()
      modifies this, hwbptEa, hwbptType
      ensures Valid() && State() == INITIAL
    {
      for i := 0 to MAX_BPT
        invariant Valid() && lens == old(lens)
        invariant forall j :: 0 <= j < i ==> hwbptEa[j] == BADADDR && hwbptType[j] == OldExec
      {
        hwbptEa[i] := BADADDR;
        hwbptType[i] := OldExec;
      }
      dr7 := 0x100;
      lens := [0, 0, 0, 0];
      assert State().slots == INITIAL.slots;
    }

    method FindHwbptSlot(ea: word, t: BptType) returns (r: int)
      requires Valid()
      ensures r == FindSlot(State(), ea, t)
    {
      for i := 0 to MAX_BPT
        invariant SlotFrom(State().slots, ea, t, i) == FindSlot(State(), ea, t)
      {
        assert State().slots[i] == Slot(hwbptEa[i], hwbptType[i], lens[i]);
        if hwbptEa[i] == ea && hwbptType[i] == t { return -1; }
        if hwbptEa[i] == BADADDR { return i; }
      }
      r := -1;
    }

    // refreshed is whether the threads took the new registers; the slot is taken anyway.
    method AddHwbpt(t: BptType, ea: word, len: int, refreshed: bool) returns (ok: bool)
      requires Valid()
      modifies this, hwbptEa, hwbptType
      ensures Valid() && State() == Added(old(State()), ea, t, len)
      ensures ok <==> FindSlot(old(State()), ea, t) >= 0 && refreshed
    {
      hide Entry;
      hide Or;
      hide LengthCode;
      hide TypeCode;
      var i := FindHwbptSlot(ea, t);
      if i == -1 { return false; }
      var lenc := LengthCode(len);
      StoreSlot(i, ea, t, lenc);
      SetBits(TypeCode(t), lenc, i);
      ok := refreshed;
    }

    method StoreSlot(i: nat, ea: word, t: BptType, ghost lenc: bv32)
      requires Valid() && i < MAX_BPT
      modifies this`lens, hwbptEa, hwbptType
      ensures Valid() && State() == old(State()).(slots := old(State()).slots[i := Slot(ea, t, lenc)])
    {
      ghost var eas, kinds := hwbptEa[..], hwbptType[..];
      JoinedUpdate(eas, kinds, lens, i, Slot(ea, t, lenc));
      hwbptEa[i] := ea;
      hwbptType[i] := t;
      lens := lens[i := lenc];
      assert hwbptEa[..] == eas[i := ea] && hwbptType[..] == kinds[i := t];
    }

    method SetBits(kind: bv32, lenc: bv32, i: nat)
      modifies this`dr7
      ensures dr7 == Or(old(dr7), Entry(kind, lenc, i))
    {
      hide AtEnable;
      hide AtType;
      hide AtLength;
      OrThree(dr7, kind, lenc, i);
      dr7 := dr7 | AtEnable(1, i);
      dr7 := dr7 | AtType(kind, i);
      dr7 := dr7 | AtLength(lenc, i);
    }

    method ClearBits(i: nat)
      modifies this`dr7
      ensures dr7 == Cleared(old(dr7), i)
    {
      dr7 := dr7 & !AtEnable(3, i);
      dr7 := dr7 & !AtType(0xF, i);
    }

    method DelHwbpt(ea: word, t: BptType, refreshed: bool) returns (ok: bool)
      requires Valid()
      modifies this, hwbptEa, hwbptType
      ensures Valid() && State() == Deleted(old(State()), ea, t)
      ensures ok <==> HolderFrom(old(State()).slots, ea, t, 0) >= 0 && refreshed
    {
      hide Cleared;
      for i := 0 to MAX_BPT
        invariant Valid() && State() == old(State())
        invariant HolderFrom(State().slots, ea, t, i) == HolderFrom(State().slots, ea, t, 0)
      {
        assert State().slots[i] == Slot(hwbptEa[i], hwbptType[i], lens[i]);
        if hwbptEa[i] == ea && hwbptType[i] == t {
          StoreSlot(i, BADADDR, hwbptType[i], lens[i]);
          ClearBits(i);
          return refreshed;
        }
      }
      ok := false;
    }

    // dr6 and drs are the debug registers of the thread that trapped.
    method HandleHwbpt(dr6: bv32, drs: seq<word>) returns (hea: Option<word>)
      requires Valid() && |drs| == MAX_BPT
      ensures hea == HandledFrom(State(), dr6, drs, 0)
    {
      hide Reported;
      for i := 0 to MAX_BPT
        invariant HandledFrom(State(), dr6, drs, i) == HandledFrom(State(), dr6, drs, 0)
      {
        assert State().slots[i] == Slot(hwbptEa[i], hwbptType[i], lens[i]);
        if Reported(dr6, i) {
          if hwbptEa[i] == drs[i] { return Some(hwbptEa[i]); }
        }
      }
      hea := None;
    }
  }
}
