/** The unsigned long words that PTRACE_PEEKTEXT and PTRACE_POKETEXT exchange (four
    little-endian bytes on the 32-bit targets): shifts by whole bytes, the mask of
    a partial word and the masked merge, with their meaning byte by byte. */
module PtraceWords {

  function ShlBytes(x: bv32, k: nat): bv32 {
    if k == 0 then x else if k == 1 then x << 8 else if k == 2 then x << 16 else if k == 3 then x << 24 else 0
  }

  function ShrBytes(x: bv32, k: nat): bv32 {
    if k == 0 then x else if k == 1 then x >> 8 else if k == 2 then x >> 16 else if k == 3 then x >> 24 else 0
  }

  function B0(w: bv32): bv8 { (w & 0xFF) as bv8 }
  function B1(w: bv32): bv8 { ((w >> 8) & 0xFF) as bv8 }
  function B2(w: bv32): bv8 { ((w >> 16) & 0xFF) as bv8 }
  function B3(w: bv32): bv8 { ((w >> 24) & 0xFF) as bv8 }

  // Byte j of a word in memory order.
  function ByteOf(w: bv32, j: nat): bv8 {
    if j == 0 then B0(w) else if j == 1 then B1(w) else if j == 2 then B2(w) else B3(w)
  }

  function Word(b0: bv8, b1: bv8, b2: bv8, b3: bv8): bv32 {
    (b0 as bv32) | ((b1 as bv32) << 8) | ((b2 as bv32) << 16) | ((b3 as bv32) << 24)
  }

  lemma WordBytes(b0: bv8, b1: bv8, b2: bv8, b3: bv8)
    ensures var w := Word(b0, b1, b2, b3); B0(w) == b0 && B1(w) == b1 && B2(w) == b2 && B3(w) == b3
  {
  }

  // The bits of a partial word: nbytes bytes from byte shift on.
  function Mask(shift: nat, nbytes: nat): bv32
    requires shift < 4 && 0 < nbytes <= 4 - shift
  {
    ShlBytes(ShrBytes(0xFFFF_FFFF, 4 - nbytes), shift)
  }

  function Mix(x: bv32, y: bv32, m: bv32): bv32 {
    (x & m) | (y & !m)
  }

  lemma MaskBytes(shift: nat, nbytes: nat)
    requires shift < 4 && 0 < nbytes <= 4 - shift
    ensures var m := Mask(shift, nbytes);
            && B0(m) == (if shift <= 0 < shift + nbytes then 0xFF else 0)
            && B1(m) == (if shift <= 1 < shift + nbytes then 0xFF else 0)
            && B2(m) == (if shift <= 2 < shift + nbytes then 0xFF else 0)
            && B3(m) == (if shift <= 3 < shift + nbytes then 0xFF else 0)
  {
  }

  // The four bytes of a mix, one bit-vector fact each.
  lemma Mix0(x: bv32, y: bv32, m: bv32)
    ensures B0(m) == 0xFF ==> B0(Mix(x, y, m)) == B0(x)
    ensures B0(m) == 0 ==> B0(Mix(x, y, m)) == B0(y)
  {
  }

  lemma Mix1(x: bv32, y: bv32, m: bv32)
    ensures B1(m) == 0xFF ==> B1(Mix(x, y, m)) == B1(x)
    ensures B1(m) == 0 ==> B1(Mix(x, y, m)) == B1(y)
  {
  }

  lemma Mix2(x: bv32, y: bv32, m: bv32)
    ensures B2(m) == 0xFF ==> B2(Mix(x, y, m)) == B2(x)
    ensures B2(m) == 0 ==> B2(Mix(x, y, m)) == B2(y)
  {
  }

  lemma Mix3(x: bv32, y: bv32, m: bv32)
    ensures B3(m) == 0xFF ==> B3(Mix(x, y, m)) == B3(x)
    ensures B3(m) == 0 ==> B3(Mix(x, y, m)) == B3(y)
  {
  }

  lemma MixBytes(x: bv32, y: bv32, m: bv32, s0: bool, s1: bool, s2: bool, s3: bool)
    requires B0(m) == (if s0 then 0xFF else 0) && B1(m) == (if s1 then 0xFF else 0)
    requires B2(m) == (if s2 then 0xFF else 0) && B3(m) == (if s3 then 0xFF else 0)
    ensures B0(Mix(x, y, m)) == if s0 then B0(x) else B0(y)
    ensures B1(Mix(x, y, m)) == if s1 then B1(x) else B1(y)
    ensures B2(Mix(x, y, m)) == if s2 then B2(x) else B2(y)
    ensures B3(Mix(x, y, m)) == if s3 then B3(x) else B3(y)
  {
    Mix0(x, y, m);
    Mix1(x, y, m);
    Mix2(x, y, m);
    Mix3(x, y, m);
  }

  lemma ShlOne(x: bv32)
    ensures B1(x << 8) == B0(x) && B2(x << 8) == B1(x) && B3(x << 8) == B2(x)
  {
  }

  lemma ShlTwo(x: bv32)
    ensures B2(x << 16) == B0(x) && B3(x << 16) == B1(x)
  {
  }

  lemma ShlThree(x: bv32)
    ensures B3(x << 24) == B0(x)
  {
  }

  lemma ShiftedBytes(x: bv32, shift: nat)
    requires shift < 4
    ensures var w := ShlBytes(x, shift);
            && (shift <= 0 ==> B0(w) == ByteOf(x, 0 - shift))
            && (shift <= 1 ==> B1(w) == ByteOf(x, 1 - shift))
            && (shift <= 2 ==> B2(w) == ByteOf(x, 2 - shift))
            && (shift <= 3 ==> B3(w) == ByteOf(x, 3 - shift))
  {
    if shift == 1 { ShlOne(x); } else if shift == 2 { ShlTwo(x); } else if shift == 3 { ShlThree(x); }
  }

  /** The read-modify-write of _write_memory replaces exactly the selected bytes. */
  lemma MergeBytes(word: bv32, prev: bv32, shift: nat, nbytes: nat, j: nat)
    requires shift < 4 && 0 < nbytes <= 4 - shift && j < 4
    ensures var w := Mix(ShlBytes(word, shift), prev, Mask(shift, nbytes));
            ByteOf(w, j) == if shift <= j < shift + nbytes then ByteOf(word, j - shift) else ByteOf(prev, j)
  {
    MaskBytes(shift, nbytes);
    ShiftedBytes(word, shift);
    MixBytes(ShlBytes(word, shift), prev, Mask(shift, nbytes),
             shift <= 0 < shift + nbytes, shift <= 1 < shift + nbytes,
             shift <= 2 < shift + nbytes, shift <= 3 < shift + nbytes);
  }

  lemma ShrStep0(x: bv32)
    ensures ShrBytes(x, 0) >> 8 == ShrBytes(x, 1) && B0(ShrBytes(x, 0)) == ByteOf(x, 0)
  {
  }

  lemma ShrStep1(x: bv32)
    ensures ShrBytes(x, 1) >> 8 == ShrBytes(x, 2) && B0(ShrBytes(x, 1)) == ByteOf(x, 1)
  {
  }

  lemma ShrStep2(x: bv32)
    ensures ShrBytes(x, 2) >> 8 == ShrBytes(x, 3) && B0(ShrBytes(x, 2)) == ByteOf(x, 2)
  {
  }

  lemma ShrStep3(x: bv32)
    ensures ShrBytes(x, 3) >> 8 == ShrBytes(x, 4) && B0(ShrBytes(x, 3)) == ByteOf(x, 3)
  {
  }

  // What the copy loop of _read_memory takes from a word shifted down byte by byte.
  lemma ShrStep(x: bv32, k: nat)
    requires k < 4
    ensures ShrBytes(x, k) >> 8 == ShrBytes(x, k + 1) && B0(ShrBytes(x, k)) == ByteOf(x, k)
  {
    if k == 0 { ShrStep0(x); } else if k == 1 { ShrStep1(x); } else if k == 2 { ShrStep2(x); } else { ShrStep3(x); }
  }
}
