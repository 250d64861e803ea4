/** The stack frame of an application call: its addresses modulo the word size, the test
    for underflow, and what is written to the stack. */
module AppcallFrame {
  import opened DebugEvents
  import opened WordMemory

  // Address arithmetic of a W-bit word; modulus is 2^W.
  predicate IsModulus(modulus: int) {
    modulus == 0x1_0000_0000 || modulus == 0x1_0000_0000_0000_0000
  }

  predicate IsAddrSize(a: int) {
    a == 4 || a == 8
  }

  // Unsigned addition and subtraction with wrap-around.
  function Add(x: int, y: int, modulus: int): (r: int)
    requires 0 <= x < modulus && 0 <= y < modulus
    ensures 0 <= r < modulus
  {
    if x + y < modulus then x + y else x + y - modulus
  }

  function Sub(x: int, y: int, modulus: int): (r: int)
    requires 0 <= x < modulus && 0 <= y < modulus
    ensures 0 <= r < modulus
  {
    if y <= x then x - y else x - y + modulus
  }

  function AlignDown(x: int, a: int): (r: int)
    requires IsAddrSize(a) && 0 <= x
    ensures 0 <= r <= x < r + a && r % a == 0
  {
    if a == 4 then x / 4 * 4 else x / 8 * 8
  }

  // align_up for a power of two; the addition may wrap.
  function AlignUp(x: int, a: int, modulus: int): (r: int)
    requires IsModulus(modulus) && IsAddrSize(a) && 0 <= x < modulus
    ensures 0 <= r < modulus && r % a == 0
    ensures x < modulus / 2 ==> x <= r < x + a
  {
    AlignDown(Add(x, a - 1, modulus), a)
  }

  datatype Layout = Layout(argsSp: int, ctrlEa: int, sp: int, size: int)

  // The addresses of dbg_appcall for nargs bytes of arguments below orgSp.
  function Lay(orgSp: int, nargs: int, a: int, modulus: int): Layout
    requires IsModulus(modulus) && IsAddrSize(a) && 0 <= orgSp < modulus && 0 <= nargs < modulus
  {
    var ctrl := Sub(orgSp, a, modulus);
    var size := AlignUp(nargs, a, modulus);
    var args := Sub(ctrl, size, modulus);
    var argsSp := args - args % 16;
    Layout(argsSp, Add(argsSp, size, modulus), Sub(argsSp, a, modulus), size)
  }

  // How far below orgSp the frame begins, without any wrap-around: the control word, the
  // arguments, the alignment and the return address.
  function Depth(orgSp: int, nargs: int, a: int, modulus: int): int
    requires IsModulus(modulus) && IsAddrSize(a) && 0 <= orgSp < modulus && 0 <= nargs < modulus
  {
    var size := AlignUp(nargs, a, modulus);
    var args := Sub(Sub(orgSp, a, modulus), size, modulus);
    a + size + args % 16 + a
  }

  lemma SubChain(x: int, y: int, z: int, modulus: int)
    requires 0 <= x < modulus && 0 <= y && 0 <= z && y + z < modulus
    ensures Sub(Sub(x, y, modulus), z, modulus) == Sub(x, y + z, modulus)
  {
  }

  lemma SubAdd(x: int, y: int, z: int, modulus: int)
    requires 0 <= x < modulus && 0 <= z <= y < modulus
    ensures Add(Sub(x, y, modulus), z, modulus) == Sub(x, y - z, modulus)
  {
  }

  // The frame as distances below orgSp, whether or not they wrap.
  lemma LayDistances(orgSp: int, nargs: int, a: int, modulus: int)
    requires IsModulus(modulus) && IsAddrSize(a) && 0 <= orgSp < modulus && 0 <= nargs < modulus / 2
    ensures var l := Lay(orgSp, nargs, a, modulus);
            var d := Depth(orgSp, nargs, a, modulus);
            && 2 * a + l.size <= d < 2 * a + l.size + 16 && d < modulus && nargs <= l.size < nargs + a
                && l.size % a == 0
            && l.argsSp % 16 == 0
            && l.argsSp == Sub(orgSp, d - a, modulus)
            && l.sp == Sub(orgSp, d, modulus)
            && l.ctrlEa == Sub(orgSp, d - a - l.size, modulus)
  {
    hide Sub;
    hide Add;
    var size := AlignUp(nargs, a, modulus);
    var args := Sub(Sub(orgSp, a, modulus), size, modulus);
    var low := args % 16;
    SubChain(orgSp, a, size, modulus);
    Lowered(args, low, modulus);
    SubChain(orgSp, a + size, low, modulus);
    SubChain(orgSp, a + size + low, a, modulus);
    SubAdd(orgSp, a + size + low, size, modulus);
  }

  lemma Lowered(x: int, y: int, modulus: int)
    requires 0 <= y <= x < modulus
    ensures Sub(x, y, modulus) == x - y
  {
  }

  /** The underflow test rejects exactly the frames that wrap around; one that passes
      lies as a whole below the original stack top, the control word included, with its
      arguments 16-byte aligned. */
  lemma UnderflowExact(orgSp: int, nargs: int, a: int, modulus: int)
    requires IsModulus(modulus) && IsAddrSize(a) && 0 <= orgSp < modulus && 0 <= nargs < modulus / 2
    ensures var l := Lay(orgSp, nargs, a, modulus);
            var d := Depth(orgSp, nargs, a, modulus);
            && (l.sp >= orgSp <==> d > orgSp)
            && (l.sp < orgSp ==>
                  && l.sp == orgSp - d && l.argsSp == l.sp + a && l.argsSp % 16 == 0
                  && l.ctrlEa == l.argsSp + l.size && l.ctrlEa + a <= orgSp
                  && nargs <= l.size)
  {
    hide Lay;
    hide Depth;
    LayDistances(orgSp, nargs, a, modulus);
  }

  // ---------------------------------------------------------------- the frame in memory

  const ADDRSIZE: int := 4

  function LittleEndian(x: word): (s: seq<bv8>)
    ensures |s| == 4
  {
    [(x % 256) as bv8, (x / 256 % 256) as bv8, (x / 0x1_0000 % 256) as bv8, (x / 0x100_0000) as bv8]
  }

  lemma Digits(a: byte, b: byte, c: byte, d: byte)
    ensures var x := a + b * 0x100 + c * 0x1_0000 + d * 0x100_0000;
            x % 256 == a && x / 256 % 256 == b && x / 0x1_0000 % 256 == c && x / 0x100_0000 == d && x < TWO_32
  {
    var x := a + b * 0x100 + c * 0x1_0000 + d * 0x100_0000;
    assert x / 256 == b + c * 0x100 + d * 0x1_0000;
    assert x / 0x1_0000 == c + d * 0x100;
  }

  /** The lowest byte comes first. */
  lemma LittleEndianBytes(a: byte, b: byte, c: byte, d: byte)
    requires a + b * 0x100 + c * 0x1_0000 + d * 0x100_0000 < TWO_32
    ensures LittleEndian(a + b * 0x100 + c * 0x1_0000 + d * 0x100_0000) == [a as bv8, b as bv8, c as bv8, d as bv8]
  {
    Digits(a, b, c, d);
  }

  const BPT_AND_LOOP: seq<bv8> := [0xCC, 0xEB, 0xFE]

  // What is written to the stack: on x86 the return address, the arguments and, over the
  // control word, a breakpoint followed by an endless loop; on ARM the arguments alone.
  function Image(ctrl: word, args: seq<bv8>, size: nat, arm: bool): seq<bv8>
    requires |args| <= size
  {
    var padded := args + seq(size - |args|, _ => 0);
    if arm then padded else LittleEndian(ctrl) + padded + BPT_AND_LOOP
  }

  datatype Outcome = NoStack | WriteFailed | Placed(sp: word, argsSp: word, ctrlEa: word, lr: Option<word>)

  lemma PrefixSlice(mem: seq<bv8>, ea: word, buf: seq<bv8>, k: nat, n: nat)
    requires IsImage(mem) && k + n <= |buf| && ea + |buf| <= TWO_32 && k < |buf|
    ensures Slice(Written(mem, ea, buf), ea + k, n) == buf[k..k + n]
  {
    var s := Slice(Written(mem, ea, buf), ea + k, n);
    forall i | 0 <= i < n ensures s[i] == buf[k + i] {
      assert At(ea + k, i) == ea + (k + i);
    }
  }

  // Is only memory from lo up to hi different?
  ghost predicate OnlyBetween(m: seq<bv8>, m': seq<bv8>, lo: int, hi: int) {
    IsImage(m) && IsImage(m') && forall a: word :: a < lo || a >= hi ==> m'[a] == m[a]
  }

  lemma WrittenBetween(mem: seq<bv8>, ea: word, buf: seq<bv8>)
    requires IsImage(mem) && ea + |buf| <= TWO_32
    ensures OnlyBetween(mem, Written(mem, ea, buf), ea, ea + |buf|)
  {
  }

  /** The setup of the stack.  Nothing at or above the original stack top is written,
      successful or not; a placed frame has the arguments at a 16-byte boundary and returns
      to the control word. */
  method SetupStack(memory: ProcessMemory, orgSp: word, args: seq<bv8>, arm: bool, f: Faults)
    returns (r: Outcome)
    requires memory.Valid() && !memory.exited && memory.hasProcess && |args| < 0x7FFF_FFE0
    modifies memory`mem
    ensures memory.Valid()
    ensures OnlyBetween(old(memory.mem), memory.mem, 0, orgSp)
    ensures r.NoStack? <==> orgSp == BADADDR || Depth(orgSp, |args|, ADDRSIZE, TWO_32) > orgSp
    ensures r.NoStack? ==> memory.mem == old(memory.mem)
    ensures r.Placed? ==> r.argsSp % 16 == 0 && r.ctrlEa + ADDRSIZE <= orgSp
                          && r.argsSp + |args| <= r.ctrlEa
                          && Slice(memory.mem, r.argsSp, |args|) == args
    ensures r.Placed? && arm ==> r.lr == Some(r.ctrlEa) && r.sp == r.argsSp
    ensures r.Placed? && !arm ==> r.lr == None && r.sp == r.argsSp - ADDRSIZE
                                  && Slice(memory.mem, r.sp, 4) == LittleEndian(r.ctrlEa)
                                  && Slice(memory.mem, r.ctrlEa, 3) == [0xCC, 0xEB, 0xFE]
  {
    if orgSp == BADADDR { return NoStack; }
    var l := ComputeLayout(orgSp, |args|);
    if l.sp >= orgSp { return NoStack; }
    var sp: word := if arm then l.argsSp else l.sp;
    var stk := Image(l.ctrlEa, args, l.size, arm);
    ghost var before := memory.mem;
    if |stk| > 0 {
      var junk: bv32 := *;
      var n, done := memory.WriteMemory(sp, stk, f, junk);
      WrittenBetween(before, sp, stk[..done]);
      if n != |stk| { return WriteFailed; }
      assert stk[..done] == stk;
      ImageParts(before, sp, l, args, arm);
    }
    r := Placed(sp, l.argsSp, l.ctrlEa, if arm then Some(l.ctrlEa) else None);
  }

  // Where the parts of the image end up.
  lemma ImageParts(mem: seq<bv8>, sp: word, l: Layout, args: seq<bv8>, arm: bool)
    requires IsImage(mem) && 0 <= l.sp && 0 <= |args| <= l.size && 0 <= l.ctrlEa && l.ctrlEa + ADDRSIZE <= TWO_32
    requires l.argsSp == l.sp + ADDRSIZE && l.ctrlEa == l.argsSp + l.size
    requires sp == if arm then l.argsSp else l.sp
    requires |Image(l.ctrlEa, args, l.size, arm)| > 0
    ensures var m := Written(mem, sp, Image(l.ctrlEa, args, l.size, arm));
            && Slice(m, l.argsSp, |args|) == args
            && (!arm ==> Slice(m, sp, 4) == LittleEndian(l.ctrlEa) && Slice(m, l.ctrlEa, 3) == BPT_AND_LOOP)
  {
    hide LittleEndian;
    var stk := Image(l.ctrlEa, args, l.size, arm);
    var n := |args|;
    if arm {
      PrefixSlice(mem, sp, stk, 0, n);
      assert stk[0..n] == args;
    } else {
      PrefixSlice(mem, sp, stk, 0, 4);
      assert stk[0..4] == LittleEndian(l.ctrlEa);
      PrefixSlice(mem, sp, stk, 4, n);
      assert stk[4..4 + n] == args;
      PrefixSlice(mem, sp, stk, 4 + l.size, 3);
      assert stk[4 + l.size..4 + l.size + 3] == BPT_AND_LOOP;
    }
  }

  // The address computation of dbg_appcall on 32-bit words: the size of the arguments is
  // rounded up to whole words, and the addresses are what lies the control word, the
  // arguments, the alignment and the return address below the stack top.
  method ComputeLayout(orgSp: word, nargs: nat) returns (l: Layout)
    requires nargs < TWO_32
    ensures nargs < TWO_32 / 2 ==>
              && nargs <= l.size < nargs + ADDRSIZE && l.size % ADDRSIZE == 0 && l.argsSp % 16 == 0
              && var d := Depth(orgSp, nargs, ADDRSIZE, TWO_32);
              && 2 * ADDRSIZE + l.size <= d < 2 * ADDRSIZE + l.size + 16
              && l.sp == Sub(orgSp, d, TWO_32)
              && l.argsSp == Sub(orgSp, d - ADDRSIZE, TWO_32)
              && l.ctrlEa == Sub(orgSp, d - ADDRSIZE - l.size, TWO_32)
    ensures nargs < TWO_32 / 2 ==>
              && (l.sp >= orgSp <==> Depth(orgSp, nargs, ADDRSIZE, TWO_32) > orgSp)
              && (l.sp < orgSp ==>
                    l.argsSp == l.sp + ADDRSIZE && l.ctrlEa == l.argsSp + l.size && l.ctrlEa + ADDRSIZE <= orgSp)
  {
    if nargs < TWO_32 / 2 {
      LayDistances(orgSp, nargs, ADDRSIZE, TWO_32);
      UnderflowExact(orgSp, nargs, ADDRSIZE, TWO_32);
    }
    var ctrlEa := Sub(orgSp, ADDRSIZE, TWO_32);
    var size := AlignUp(nargs, ADDRSIZE, TWO_32);
    var argsSp := Sub(ctrlEa, size, TWO_32);
    argsSp := argsSp - argsSp % 16;
    ctrlEa := Add(argsSp, size, TWO_32);
    var sp := Sub(argsSp, ADDRSIZE, TWO_32);
    l := Layout(argsSp, ctrlEa, sp, size);
  }
}
