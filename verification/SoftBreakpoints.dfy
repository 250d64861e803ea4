/** Software breakpoints on top of word-granular memory: adding, deleting, forgetting
    deleted breakpoints on resumption, restoring after a crash, and the batches of
    dbg_update_bpts.  Memory is the clean image overlaid with breakpoint code. */
module SoftBreakpoints {
  import opened DebugEvents
  import opened LeastElement
  import opened WordMemory

  // A breakpoint: the bytes saved when it was added, and the code written over them
  // (the program does not keep the latter).
  datatype SoftBpt = SoftBpt(saved: seq<bv8>, code: seq<bv8>)

  // bpts keeps deleted breakpoints until the application runs again.
  datatype Soft = Soft(mem: seq<bv8>, bpts: map<word, SoftBpt>, removed: set<word>)

  const X86_BPT_CODE: seq<bv8> := [0xCC]
  const ARM_BPT_CODE: seq<bv8> := [0xF0, 0x01, 0xF0, 0xE7]
  const THUMB16_BPT: seq<bv8> := [0x10, 0xDE]
  const THUMB32_BPT: seq<bv8> := [0xF0, 0xF7, 0x00, 0xA0]
  const SAVED_SIZE: nat := 8
  const USE_THUMB32_BPT: nat := 0x80

  function DefaultCode(arm: bool): (c: seq<bv8>)
    ensures 0 < |c| <= 4
  {
    if arm then ARM_BPT_CODE else X86_BPT_CODE
  }

  // BX LR, POP {PC}, PUSH {LR}
  predicate LooksLikeThumb(opcode: seq<bv8>) {
    opcode == [0x70, 0x47] || opcode == [0x00, 0xBD] || opcode == [0x00, 0xB5]
  }

  /** The code to write for a breakpoint of the requested length; a negative length
      leaves the choice to the server, which looks at the two opcode bytes. */
  function BptCode(arm: bool, len: int, opcode: seq<bv8>): Option<seq<bv8>> {
    if arm && len == 2 then Some(THUMB16_BPT)
    else if arm && len < 0 && LooksLikeThumb(opcode) then Some(THUMB16_BPT)
    else if arm && len == 2 + USE_THUMB32_BPT then Some(THUMB32_BPT)
    else if len < 0 then Some(DefaultCode(arm))
    else if 0 < len <= |DefaultCode(arm)| then Some(DefaultCode(arm)[..len])
    else None
  }

  /** Which code is written: INT 3 on x86; on ARM the 16-bit Thumb code if two bytes are asked
      for, or if nothing is asked for and the opcode there is a typical Thumb one, the 32-bit
      one if that is asked for, and the ARM code, or its beginning, otherwise. */
  lemma CodeWritten(arm: bool, len: int, opcode: seq<bv8>)
    ensures BptCode(arm, len, opcode) ==
            if !arm then (if len < 0 || len == 1 then Some([0xCC]) else None)
            else if len == 2 || (len < 0 && opcode in {[0x70, 0x47], [0x00, 0xBD], [0x00, 0xB5]})
            then Some([0x10, 0xDE])
            else if len == 0x82 then Some([0xF0, 0xF7, 0x00, 0xA0])
            else if len < 0 || len == 4 then Some([0xF0, 0x01, 0xF0, 0xE7])
            else if len == 1 then Some([0xF0])
            else if len == 3 then Some([0xF0, 0x01, 0xF0])
            else None
  {
    assert ARM_BPT_CODE[..1] == [0xF0] && ARM_BPT_CODE[..3] == [0xF0, 0x01, 0xF0] && ARM_BPT_CODE[..4] == ARM_BPT_CODE;
    assert X86_BPT_CODE[..1] == X86_BPT_CODE;
  }

  // ---------------------------------------------------------------- one access

  ghost function ReadDone(f: Faults, ea: word, n: nat): (d: nat)
    requires n < 0x8000_0000
    ensures ReadStops(f, ea, n, d)
  {
    ReadFrom(f, ea, n, 0)
  }

  ghost function ReadFrom(f: Faults, ea: word, n: nat, i: nat): (d: nat)
    requires i <= n < 0x8000_0000 && AllCanRead(f, ea, i)
    ensures ReadStops(f, ea, n, d)
    decreases n - i
  {
    if i == n || WordAt(At(ea, i)) in f.peek then i else ReadFrom(f, ea, n, i + 1)
  }

  ghost function WriteDone(f: Faults, ea: word, n: nat): (d: nat)
    requires n < 0x8000_0000
    ensures WriteStops(f, ea, n, d)
  {
    WriteFrom(f, ea, n, 0)
  }

  ghost function WriteFrom(f: Faults, ea: word, n: nat, i: nat): (d: nat)
    requires i <= n < 0x8000_0000 && AllCanWrite(f, ea, n, i)
    ensures WriteStops(f, ea, n, d)
    decreases n - i
  {
    if i == n || !CanWrite(f, ea, n, WordAt(At(ea, i))) then
      assert i > 0 && At(ea, i) % 4 != 0 ==> WordAt(At(ea, i - 1)) == WordAt(At(ea, i));
      i
    else WriteFrom(f, ea, n, i + 1)
  }

  lemma ReadStopsOnce(f: Faults, ea: word, n: nat, d: nat, e: nat)
    requires n < TWO_32 && ReadStops(f, ea, n, d) && ReadStops(f, ea, n, e)
    ensures d == e
  {
  }

  lemma WriteStopsOnce(f: Faults, ea: word, n: nat, d: nat, e: nat)
    requires n < TWO_32 && WriteStops(f, ea, n, d) && WriteStops(f, ea, n, e)
    ensures d == e
  {
  }

  // What the kernel does for one request: the faults of the moment, the contents of
  // uninitialised buffers, and what the hardware breakpoint code answers.
  datatype Env = Env(alive: bool, faults: Faults, junk: seq<bv8>, hw: bool)

  ghost function ReadCount(e: Env, ea: word, n: nat): nat
    requires n < 0x8000_0000
  {
    if e.alive then ReadDone(e.faults, ea, n) else 0
  }

  ghost function WriteCount(e: Env, ea: word, n: nat): nat
    requires n < 0x8000_0000
  {
    if e.alive then WriteDone(e.faults, ea, n) else 0
  }

  // A write that may stop early.
  ghost function Poked(mem: seq<bv8>, ea: word, buf: seq<bv8>, e: Env): (r: seq<bv8>)
    requires IsImage(mem) && |buf| < 0x8000_0000
    ensures IsImage(r)
  {
    Written(mem, ea, buf[..WriteCount(e, ea, |buf|)])
  }

  // What a read leaves in a buffer that held fill.
  ghost function ReadInto(mem: seq<bv8>, ea: word, fill: seq<bv8>, e: Env): (r: seq<bv8>)
    requires IsImage(mem) && |fill| < 0x8000_0000
    ensures |r| == |fill|
  {
    var d := ReadCount(e, ea, |fill|);
    Slice(mem, ea, d) + fill[d..]
  }

  // ---------------------------------------------------------------- requests

  // dbg_add_bpt for a software breakpoint, up to the hardware fallback.
  ghost function Add(s: Soft, ea: word, code: seq<bv8>, e: Env): (Soft, bool)
    requires IsImage(s.mem) && 0 < |code| <= 4 && |e.junk| == SAVED_SIZE
  {
    if ReadCount(e, ea, |code|) == 0 then (s, false)
    else
      var saved := ReadInto(s.mem, ea, e.junk[..|code|], e);
      var mem := Poked(s.mem, ea, code, e);
      if WriteCount(e, ea, |code|) < |code| then (s.(mem := mem), false)
      else (Soft(mem, s.bpts[ea := SoftBpt(saved, code)], s.removed - {ea}), true)
  }

  // dbg_del_bpt with original bytes, up to the hardware fallback.
  ghost function Del(s: Soft, ea: word, orig: seq<bv8>, e: Env): (Soft, bool)
    requires IsImage(s.mem) && 0 < |orig| < 0x8000_0000
  {
    var mem := Poked(s.mem, ea, orig, e);
    if WriteCount(e, ea, |orig|) < |orig| then (s.(mem := mem), false)
    else (s.(mem := mem, removed := s.removed + {ea}), true)
  }

  // resume_app when the application may run: deleted breakpoints are forgotten.
  function Forget(s: Soft): Soft {
    s.(bpts := s.bpts - s.removed, removed := {})
  }

  // dbg_write_memory on behalf of the client.
  ghost function Patch(s: Soft, ea: word, buf: seq<bv8>, e: Env): Soft
    requires IsImage(s.mem) && |buf| < 0x8000_0000
  {
    s.(mem := Poked(s.mem, ea, buf, e))
  }

  /** Deleted breakpoints are gone then, and no others. */
  lemma ForgottenIff(s: Soft, k: word)
    ensures var r := Forget(s);
            && r.mem == s.mem && r.removed == {}
            && (k in r.bpts <==> k in s.bpts && k !in s.removed) && (k in r.bpts ==> r.bpts[k] == s.bpts[k])
  {
  }

  ghost function RestoreOne(s: Soft, k: word, e: Env): (r: Soft)
    requires IsImage(s.mem) && k in s.bpts && |s.bpts[k].saved| <= 4
    ensures IsImage(r.mem)
  {
    s.(mem := Poked(s.mem, k, s.bpts[k].saved, e))
  }

  ghost predicate SmallSaved(s: Soft) {
    forall k :: k in s.bpts ==> |s.bpts[k].saved| <= 4
  }

  ghost function RestoreAll(s: Soft, todo: set<word>, e: Env): (r: Soft)
    requires IsImage(s.mem) && todo <= s.bpts.Keys && SmallSaved(s)
    ensures IsImage(r.mem)
    decreases |todo|
  {
    if todo == {} then s
    else
      var k := Least(todo);
      RestoreAll(RestoreOne(s, k, e), todo - {k}, e)
  }

  // restore_broken_breakpoints
  ghost function Restore(s: Soft, e: Env): Soft
    requires IsImage(s.mem) && SmallSaved(s)
  {
    RestoreAll(s, s.bpts.Keys, e).(bpts := map[])
  }

  // ---------------------------------------------------------------- batches

  predicate ValidLen(arm: bool, len: int) {
    len < 0 || (arm && len == 2 + USE_THUMB32_BPT) || 0 < len <= |DefaultCode(arm)|
  }

  lemma ValidLenHasCode(arm: bool, len: int, opcode: seq<bv8>)
    ensures BptCode(arm, len, opcode).Some? <==> ValidLen(arm, len)
    ensures ValidLen(arm, len) ==> 0 < |BptCode(arm, len, opcode).value| <= 4
  {
  }

  // The two opcode bytes dbg_add_bpt looks at, if it can read them.
  ghost function Opcode(s: Soft, ea: word, e: Env): seq<bv8>
    requires IsImage(s.mem)
  {
    if ReadCount(e, ea, 2) == 2 then Slice(s.mem, ea, 2) else []
  }

  // dbg_add_bpt: what the software attempt fails to do is left to a debug register on x86.
  ghost function DbgAdd(s: Soft, arm: bool, soft: bool, ea: word, len: int, e: Env): (r: (Soft, bool))
    requires IsImage(s.mem) && |e.junk| == SAVED_SIZE && (soft ==> ValidLen(arm, len))
    ensures IsImage(r.0.mem)
  {
    if !soft then (s, !arm && e.hw)
    else
      var (s', ok) := (ValidLenHasCode(arm, len, Opcode(s, ea, e));
          Add(s, ea, BptCode(arm, len, Opcode(s, ea, e)).value, e));
      (s', ok || (!arm && e.hw))
  }

  // dbg_del_bpt with len of the original bytes.  An empty write counts as done, and so does
  // one of negative length to a live process.
  ghost function DbgDel(s: Soft, arm: bool, ea: word, orig: seq<bv8>, len: int, e: Env): (r: (Soft, bool))
    requires IsImage(s.mem) && len <= |orig| < 0x8000_0000
    ensures IsImage(r.0.mem)
  {
    if orig == [] then (s, !arm && e.hw)
    else
      var (s', ok) :=
        if len > 0 then Del(s, ea, orig[..len], e)
        else if len == 0 || e.alive then (s.(removed := s.removed + {ea}), true)
        else (s, false);
      (s', ok || (!arm && e.hw))
  }

  const BPT_OK := 0
  const BPT_READ_ERROR := 7
  const BPT_WRITE_ERROR := 8
  const BPT_SKIP := 9

  datatype UpdateBpt = UpdateBpt(ea: word, soft: bool, size: int, orgbytes: seq<bv8>, code: int)

  const ZEROS: seq<bv8> := [0, 0, 0, 0]

  // An odd address has the T bit set: the instruction before it is Thumb code.
  predicate IsThumb(arm: bool, ea: word) {
    arm && ea % 2 == 1
  }

  // The address of the instruction that ea stands for.
  function Home(arm: bool, ea: word): (at: word)
    ensures at <= ea && (arm ==> at % 2 == 0) && (!arm ==> at == ea)
  {
    if IsThumb(arm, ea) then ea - 1 else ea
  }

  // Are these the first two bytes of a 32-bit Thumb instruction?
  predicate IsThumb32(half: seq<bv8>)
    requires |half| == 2
  {
    var code := half[0] as bv16 | (half[1] as bv16 << 8);
    29 <= code >> 11 <= 31
  }

  /** That is so when its five highest bits are 11101, 11110 or 11111. */
  lemma Thumb32Iff(half: seq<bv8>)
    requires |half| == 2
    ensures IsThumb32(half) <==> half[1] >= 0xE8
  {
    HighFive(half[0], half[1]);
  }

  lemma HighFive(lo: bv8, hi: bv8)
    ensures (lo as bv16 | (hi as bv16 << 8)) >> 11 == hi as bv16 >> 3
    ensures 29 <= hi as bv16 >> 3 <= 31 <==> hi >= 0xE8
  {
  }

  // Where dbg_update_bpts puts a breakpoint, the length it asks for and the bytes it reports.
  datatype Spot = Spot(ea: word, len: nat, orgbytes: seq<bv8>)

  // The n bytes reported for a new breakpoint at ea; zeros when the debugger continues
  // from breakpoints by itself.
  ghost function OrgBytes(s: Soft, cont: bool, ea: word, n: nat, e: Env): (r: seq<bv8>)
    requires IsImage(s.mem) && n <= 4
    ensures |r| == n
  {
    if cont then ZEROS[..n] else ReadInto(s.mem, ea, ZEROS[..n], e)
  }

  // read_bpt_orgbytes: debmod_t reads the bytes, arm_debmod_t steps back from an odd
  // address and asks for two of them, linux_debmod_t reads two more if those begin a
  // 32-bit instruction.
  ghost function Locate(s: Soft, arm: bool, cont: bool, ea: word, e: Env): (r: Option<Spot>)
    requires IsImage(s.mem)
    ensures r.Some? ==> ValidLen(arm, r.value.len)
  {
    var at := Home(arm, ea);
    var n := if IsThumb(arm, ea) then 2 else |DefaultCode(arm)|;
    var org := OrgBytes(s, cont, at, n, e);
    if !cont && ReadCount(e, at, n) == 0 then None
    else if n != 2 || !IsThumb32(org) then Some(Spot(at, n, org))
    else if ReadCount(e, At(at, 2), 2) == 0 then None
    else Some(Spot(at, 2 + USE_THUMB32_BPT, org + ReadInto(s.mem, At(at, 2), ZEROS[..2], e)))
  }

  // One entry of the addition part of dbg_update_bpts.
  ghost function AddEntry(s: Soft, arm: bool, cont: bool, b: UpdateBpt, e: Env): (r: (Soft, UpdateBpt))
    requires IsImage(s.mem) && |e.junk| == SAVED_SIZE
    ensures IsImage(r.0.mem)
  {
    if b.code != BPT_OK then (s, b)
    else if !b.soft then
      var (s', ok) := DbgAdd(s, arm, false, b.ea, b.size, e);
      (s', if ok then b else b.(code := BPT_WRITE_ERROR))
    else match Locate(s, arm, cont, b.ea, e)
      case None => (s, b.(code := BPT_READ_ERROR))
      case Some(spot) =>
        var (s', ok) := DbgAdd(s, arm, true, spot.ea, spot.len, e);
        (s', if ok then b.(orgbytes := spot.orgbytes) else b.(code := BPT_WRITE_ERROR))
  }

  // How many of its original bytes an entry of the deletion part asks to be written.
  function DelLen(b: UpdateBpt): int {
    if b.soft then |b.orgbytes| else if b.orgbytes == [] then 0 else b.size
  }

  // The program reads that many bytes of the entry.
  predicate Deletable(b: UpdateBpt) {
    DelLen(b) <= |b.orgbytes| < 0x8000_0000
  }

  ghost function DelEntry(s: Soft, arm: bool, b: UpdateBpt, e: Env): (r: (Soft, UpdateBpt))
    requires IsImage(s.mem) && Deletable(b)
    ensures IsImage(r.0.mem)
  {
    var (s', ok) := DbgDel(s, arm, b.ea, b.orgbytes, DelLen(b), e);
    (s', b.(code := if ok then BPT_OK else BPT_WRITE_ERROR))
  }

  ghost predicate AllJunk(envs: seq<Env>) {
    forall i :: 0 <= i < |envs| ==> |envs[i].junk| == SAVED_SIZE
  }

  ghost function AddEntries(s: Soft, arm: bool, cont: bool, bs: seq<UpdateBpt>, envs: seq<Env>): (r: (Soft,
      seq<UpdateBpt>))
    requires IsImage(s.mem) && |bs| == |envs| && AllJunk(envs)
    ensures IsImage(r.0.mem) && |r.1| == |bs|
    decreases |bs|
  {
    if bs == [] then (s, [])
    else
      var (s1, b1) := AddEntry(s, arm, cont, bs[0], envs[0]);
      var (s2, bs2) := AddEntries(s1, arm, cont, bs[1..], envs[1..]);
      (s2, [b1] + bs2)
  }

  predicate AllDeletable(bs: seq<UpdateBpt>) {
    forall i :: 0 <= i < |bs| ==> Deletable(bs[i])
  }

  ghost function DelEntries(s: Soft, arm: bool, bs: seq<UpdateBpt>, envs: seq<Env>): (r: (Soft, seq<UpdateBpt>))
    requires IsImage(s.mem) && |bs| == |envs| && AllDeletable(bs)
    ensures IsImage(r.0.mem) && |r.1| == |bs|
    decreases |bs|
  {
    if bs == [] then (s, [])
    else
      var (s1, b1) := DelEntry(s, arm, bs[0], envs[0]);
      var (s2, bs2) := DelEntries(s1, arm, bs[1..], envs[1..]);
      (s2, [b1] + bs2)
  }

  function CountOk(bs: seq<UpdateBpt>): nat
    decreases |bs|
  {
    if bs == [] then 0 else (if bs[0].code == BPT_OK then 1 else 0) + CountOk(bs[1..])
  }

  /** The count is that of the entries that came out well. */
  lemma {:induction false} CountOkIs(bs: seq<UpdateBpt>)
    ensures CountOk(bs) == |set i | 0 <= i < |bs| && bs[i].code == 0|
    decreases |bs|
  {
    var all := set i | 0 <= i < |bs| && bs[i].code == 0;
    if bs == [] {
      assert all == {};
    } else {
      var n := |bs| - 1;
      CountOkLast(bs[..n], bs[n]);
      assert bs[..n] + [bs[n]] == bs;
      CountOkIs(bs[..n]);
      var rest := set i | 0 <= i < n && bs[..n][i].code == 0;
      assert all == if bs[n].code == 0 then rest + {n} else rest;
    }
  }

  lemma {:induction false} CountOkLast(bs: seq<UpdateBpt>, b: UpdateBpt)
    ensures CountOk(bs + [b]) == CountOk(bs) + if b.code == 0 then 1 else 0
    decreases |bs|
  {
    if bs == [] {
      assert ([] + [b])[1..] == [];
    } else {
      assert (bs + [b])[1..] == bs[1..] + [b];
      CountOkLast(bs[1..], b);
    }
  }

  /** What an entry of a batch is told: nothing if it is to be skipped; 7 if the instruction
      could not be read, 8 if the breakpoint could not be added, and the bytes found
      otherwise.  A deletion is told 0 or 8. */
  lemma EntryTold(s: Soft, arm: bool, cont: bool, b: UpdateBpt, e: Env)
    requires IsImage(s.mem) && |e.junk| == SAVED_SIZE
    ensures var (r, b1), spot := AddEntry(s, arm, cont, b, e), Locate(s, arm, cont, b.ea, e);
            && (b.code != 0 ==> r == s && b1 == b)
            && (b.code == 0 && b.soft && spot == None ==> r == s && b1 == b.(code := 7))
            && (b.code == 0 && b.soft && spot.Some? ==>
                  var (z, ok) := DbgAdd(s, arm, true, spot.value.ea, spot.value.len, e);
                  r == z && b1 == if ok then b.(orgbytes := spot.value.orgbytes) else b.(code := 8))
            && (b.code == 0 && !b.soft ==> r == s && b1 == if !arm && e.hw then b else b.(code := 8))
  {
    hide Locate;
  }

  lemma DeletionTold(s: Soft, arm: bool, b: UpdateBpt, e: Env)
    requires IsImage(s.mem) && Deletable(b)
    ensures var (r, b1) := DelEntry(s, arm, b, e);
            var (z, ok) := DbgDel(s, arm, b.ea, b.orgbytes, if b.soft then |b.orgbytes| else if b.orgbytes == [] then 0
                                                            else b.size, e);
            r == z && b1 == b.(code := if ok then 0 else 8)
  {
    hide DbgDel;
  }

  /** A deletion writes as many of the original bytes as asked for, from the first on, and marks
      the address when all of them could be written; with none asked for it only marks it. */
  lemma DeletionWrites(s: Soft, arm: bool, ea: word, orig: seq<bv8>, len: int, e: Env)
    requires IsImage(s.mem) && len <= |orig| < 0x8000_0000 && orig != []
    ensures var (r, ok) := DbgDel(s, arm, ea, orig, len, e);
            && r.bpts == s.bpts
            && (len > 0 ==>
                  var n := WriteCount(e, ea, len);
                  && n <= len && r.mem == Written(s.mem, ea, orig[..n])
                  && r.removed == (if n == len then s.removed + {ea} else s.removed)
                  && (ok <==> n == len || (!arm && e.hw)))
            && (len == 0 ==> r == s.(removed := s.removed + {ea}) && ok)
  {
    hide Written;
    if len > 0 {
      var n := WriteCount(e, ea, len);
      assert n <= len by { WriteCountBound(e, ea, len); }
      assert orig[..len][..n] == orig[..n];
    }
  }

  lemma WriteCountBound(e: Env, ea: word, n: nat)
    requires n < 0x8000_0000
    ensures WriteCount(e, ea, n) <= n
  {
  }
}
