/** The layout of the debug control register DR7, as section 17.2.4 of the Intel SDM,
    volume 3B, gives it (18.2.4 in later editions): a pair of enable bits and a nibble of
    type and length for each of the four breakpoints, and bit 8 for exact local ones. */
module DebugRegisters {

  const EXACT: bv32 := 0x100

  // x moved to the enable bits, the type bits and the length bits of breakpoint i; the
  // shifts are by 2 * i, 16 + 4 * i and 18 + 4 * i.
  function AtEnable(x: bv32, i: nat): bv32 {
    if i == 0 then x else if i == 1 then x << 2 else if i == 2 then x << 4 else x << 6
  }

  function AtType(x: bv32, i: nat): bv32 {
    if i == 0 then x << 16 else if i == 1 then x << 20 else if i == 2 then x << 24 else x << 28
  }

  function AtLength(x: bv32, i: nat): bv32 {
    if i == 0 then x << 18 else if i == 1 then x << 22 else if i == 2 then x << 26 else x << 30
  }

  // What breakpoint i of the given type and length contributes.
  function Entry(kind: bv32, length: bv32, i: nat): bv32 {
    AtEnable(1, i) | AtType(kind, i) | AtLength(length, i)
  }

  function Join(e0: bv32, e1: bv32, e2: bv32, e3: bv32): bv32 {
    EXACT | e0 | e1 | e2 | e3
  }

  // The bits of breakpoint i.
  function Field(i: nat): bv32 {
    AtEnable(3, i) | AtType(0xF, i)
  }

  predicate Confined(e: bv32, i: nat) {
    e & !Field(i) == 0
  }

  lemma Confined0(kind: bv32, length: bv32)
    requires kind < 16 && length < 4
    ensures Confined(Entry(kind, length, 0), 0)
  {
  }

  lemma Confined1(kind: bv32, length: bv32)
    requires kind < 16 && length < 4
    ensures Confined(Entry(kind, length, 1), 1)
  {
  }

  lemma Confined2(kind: bv32, length: bv32)
    requires kind < 16 && length < 4
    ensures Confined(Entry(kind, length, 2), 2)
  {
  }

  lemma Confined3(kind: bv32, length: bv32)
    requires kind < 16 && length < 4
    ensures Confined(Entry(kind, length, 3), 3)
  {
  }

  // Clearing the bits of breakpoint i.
  function Cleared(d: bv32, i: nat): bv32 {
    d & !AtEnable(3, i) & !AtType(0xF, i)
  }

  lemma Clear0(e0: bv32, e1: bv32, e2: bv32, e3: bv32)
    requires Confined(e0, 0) && Confined(e1, 1) && Confined(e2, 2) && Confined(e3, 3)
    ensures Cleared(Join(e0, e1, e2, e3), 0) == Join(0, e1, e2, e3)
  {
  }

  lemma Clear1(e0: bv32, e1: bv32, e2: bv32, e3: bv32)
    requires Confined(e0, 0) && Confined(e1, 1) && Confined(e2, 2) && Confined(e3, 3)
    ensures Cleared(Join(e0, e1, e2, e3), 1) == Join(e0, 0, e2, e3)
  {
  }

  lemma Clear2(e0: bv32, e1: bv32, e2: bv32, e3: bv32)
    requires Confined(e0, 0) && Confined(e1, 1) && Confined(e2, 2) && Confined(e3, 3)
    ensures Cleared(Join(e0, e1, e2, e3), 2) == Join(e0, e1, 0, e3)
  {
  }

  lemma Clear3(e0: bv32, e1: bv32, e2: bv32, e3: bv32)
    requires Confined(e0, 0) && Confined(e1, 1) && Confined(e2, 2) && Confined(e3, 3)
    ensures Cleared(Join(e0, e1, e2, e3), 3) == Join(e0, e1, e2, 0)
  {
  }

  function Or(d: bv32, x: bv32): bv32 { d | x }

  // Setting the bits of a breakpoint that has none.
  lemma Set0(x: bv32, e1: bv32, e2: bv32, e3: bv32)
    ensures Or(Join(0, e1, e2, e3), x) == Join(x, e1, e2, e3)
  {
  }

  lemma Set1(x: bv32, e0: bv32, e2: bv32, e3: bv32)
    ensures Or(Join(e0, 0, e2, e3), x) == Join(e0, x, e2, e3)
  {
  }

  lemma Set2(x: bv32, e0: bv32, e1: bv32, e3: bv32)
    ensures Or(Join(e0, e1, 0, e3), x) == Join(e0, e1, x, e3)
  {
  }

  lemma Set3(x: bv32, e0: bv32, e1: bv32, e2: bv32)
    ensures Or(Join(e0, e1, e2, 0), x) == Join(e0, e1, e2, x)
  {
  }

  // Reading the fields back.
  function EnablePair(d: bv32, i: nat): bv32 {
    if i == 0 then d & 3 else if i == 1 then (d >> 2) & 3 else if i == 2 then (d >> 4) & 3 else (d >> 6) & 3
  }

  function Nibble(d: bv32, i: nat): bv32 {
    if i == 0 then (d >> 16) & 0xF else if i == 1 then (d >> 20) & 0xF
    else if i == 2 then (d >> 24) & 0xF else (d >> 28) & 0xF
  }

  lemma Read0(e0: bv32, e1: bv32, e2: bv32, e3: bv32)
    requires Confined(e0, 0) && Confined(e1, 1) && Confined(e2, 2) && Confined(e3, 3)
    ensures EnablePair(Join(e0, e1, e2, e3), 0) == EnablePair(e0, 0) && Nibble(Join(e0, e1, e2, e3), 0) == Nibble(e0, 0)
  {
  }

  lemma Read1(e0: bv32, e1: bv32, e2: bv32, e3: bv32)
    requires Confined(e0, 0) && Confined(e1, 1) && Confined(e2, 2) && Confined(e3, 3)
    ensures EnablePair(Join(e0, e1, e2, e3), 1) == EnablePair(e1, 1) && Nibble(Join(e0, e1, e2, e3), 1) == Nibble(e1, 1)
  {
  }

  lemma Read2(e0: bv32, e1: bv32, e2: bv32, e3: bv32)
    requires Confined(e0, 0) && Confined(e1, 1) && Confined(e2, 2) && Confined(e3, 3)
    ensures EnablePair(Join(e0, e1, e2, e3), 2) == EnablePair(e2, 2) && Nibble(Join(e0, e1, e2, e3), 2) == Nibble(e2, 2)
  {
  }

  lemma Read3(e0: bv32, e1: bv32, e2: bv32, e3: bv32)
    requires Confined(e0, 0) && Confined(e1, 1) && Confined(e2, 2) && Confined(e3, 3)
    ensures EnablePair(Join(e0, e1, e2, e3), 3) == EnablePair(e3, 3) && Nibble(Join(e0, e1, e2, e3), 3) == Nibble(e3, 3)
  {
  }

  lemma ReadExact(e0: bv32, e1: bv32, e2: bv32, e3: bv32)
    ensures Join(e0, e1, e2, e3) & EXACT == EXACT
  {
  }

  // The fields of an entry: locally enabled, type in the low and length in the high bits
  // of the nibble.
  lemma ReadEntry0(kind: bv32, length: bv32)
    requires kind < 16 && length < 4
    ensures EnablePair(Entry(kind, length, 0), 0) == 1 && Nibble(Entry(kind, length, 0), 0) == kind | (length << 2)
  {
  }

  lemma ReadEntry1(kind: bv32, length: bv32)
    requires kind < 16 && length < 4
    ensures EnablePair(Entry(kind, length, 1), 1) == 1 && Nibble(Entry(kind, length, 1), 1) == kind | (length << 2)
  {
  }

  lemma ReadEntry2(kind: bv32, length: bv32)
    requires kind < 16 && length < 4
    ensures EnablePair(Entry(kind, length, 2), 2) == 1 && Nibble(Entry(kind, length, 2), 2) == kind | (length << 2)
  {
  }

  lemma ReadEntry3(kind: bv32, length: bv32)
    requires kind < 16 && length < 4
    ensures EnablePair(Entry(kind, length, 3), 3) == 1 && Nibble(Entry(kind, length, 3), 3) == kind | (length << 2)
  {
  }

  lemma EnableSet0(d: bv32, kind: bv32, length: bv32)
    ensures EnablePair(Or(d, Entry(kind, length, 0)), 0) != 0
  {
  }

  lemma EnableSet1(d: bv32, kind: bv32, length: bv32)
    ensures EnablePair(Or(d, Entry(kind, length, 1)), 1) != 0
  {
  }

  lemma EnableSet2(d: bv32, kind: bv32, length: bv32)
    ensures EnablePair(Or(d, Entry(kind, length, 2)), 2) != 0
  {
  }

  lemma EnableSet3(d: bv32, kind: bv32, length: bv32)
    ensures EnablePair(Or(d, Entry(kind, length, 3)), 3) != 0
  {
  }

  lemma LowBits(kind: bv32, length: bv32)
    requires kind < 16 && length < 4
    ensures (kind | (length << 2)) & 3 == kind & 3
    ensures kind < 4 ==> (kind | (length << 2)) >> 2 == length
    ensures kind & 3 == kind <==> kind < 4
  {
  }
}
