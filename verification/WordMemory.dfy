/** Access to the memory of the debuggee.  The kernel exchanges whole aligned words;
    _read_memory and _write_memory turn that into byte memory: a masked
    read-modify-write for partial words, a shift-and-copy for partial reads.
    Addresses are 32 bits wide and wrap around. */
module WordMemory {
  import opened DebugEvents
  import opened PtraceWords

  // The address space as a sequence of 2^32 bytes.
  predicate IsImage(mem: seq<bv8>) {
    |mem| == TWO_32
  }

  // The i-th address from ea on, and the distance from ea up to a.
  function At(ea: word, i: nat): word
    requires i <= TWO_32
  {
    if ea + i < TWO_32 then ea + i else ea + i - TWO_32
  }

  function Off(ea: word, a: word): word {
    if ea <= a then a - ea else a - ea + TWO_32
  }

  // Byte memory: what a read returns and what a write leaves.
  function Slice(mem: seq<bv8>, ea: word, n: nat): (s: seq<bv8>)
    requires IsImage(mem) && n <= TWO_32
    ensures |s| == n
  {
    seq(n, i requires 0 <= i < n => mem[At(ea, i)])
  }

  function Written(mem: seq<bv8>, ea: word, buf: seq<bv8>): (r: seq<bv8>)
    requires IsImage(mem) && |buf| <= TWO_32
    ensures IsImage(r)
  {
    seq(TWO_32, a requires 0 <= a < TWO_32 => if Off(ea, a) < |buf| then buf[Off(ea, a)] else mem[a])
  }

  // ---------------------------------------------------------------- laws of byte memory

  lemma ReadAfterWrite(mem: seq<bv8>, ea: word, buf: seq<bv8>)
    requires IsImage(mem) && |buf| <= TWO_32
    ensures Slice(Written(mem, ea, buf), ea, |buf|) == buf
  {
    var s := Slice(Written(mem, ea, buf), ea, |buf|);
    forall i | 0 <= i < |buf| ensures s[i] == buf[i] {
      assert Off(ea, At(ea, i)) == i;
    }
  }

  // Does the range of n bytes at ea contain a?
  predicate Covers(ea: word, n: nat, a: word) {
    Off(ea, a) < n
  }

  predicate Apart(ea: word, n: nat, ea': word, n': nat) {
    forall a: word :: !(Covers(ea, n, a) && Covers(ea', n', a))
  }

  lemma WriteFrame(mem: seq<bv8>, ea: word, buf: seq<bv8>, ea': word, n: nat)
    requires IsImage(mem) && |buf| <= TWO_32 && n <= TWO_32
    requires Apart(ea, |buf|, ea', n)
    ensures Slice(Written(mem, ea, buf), ea', n) == Slice(mem, ea', n)
  {
    forall i | 0 <= i < n ensures Written(mem, ea, buf)[At(ea', i)] == mem[At(ea', i)] {
      assert Off(ea', At(ea', i)) == i;
      assert Covers(ea', n, At(ea', i));
    }
  }

  /** Writing back what was read undoes a write. */
  lemma WriteBack(mem: seq<bv8>, ea: word, buf: seq<bv8>)
    requires IsImage(mem) && |buf| <= TWO_32
    ensures Written(Written(mem, ea, buf), ea, Slice(mem, ea, |buf|)) == mem
  {
    var r := Written(Written(mem, ea, buf), ea, Slice(mem, ea, |buf|));
    forall a: word | a < TWO_32 ensures r[a] == mem[a] {
      if Off(ea, a) < |buf| { assert At(ea, Off(ea, a)) == a; }
    }
  }

  lemma WriteSplit(mem: seq<bv8>, ea: word, buf: seq<bv8>, d: nat, n: nat)
    requires IsImage(mem) && |buf| < TWO_32 && d + n <= |buf|
    ensures Written(Written(mem, ea, buf[..d]), At(ea, d), buf[d..d + n]) == Written(mem, ea, buf[..d + n])
  {
    var l := Written(Written(mem, ea, buf[..d]), At(ea, d), buf[d..d + n]);
    var r := Written(mem, ea, buf[..d + n]);
    forall a: word | a < TWO_32 ensures l[a] == r[a] {
      if Off(ea, a) >= d {
        assert Off(At(ea, d), a) == Off(ea, a) - d;
      } else {
        assert Off(At(ea, d), a) >= n;
      }
    }
  }

  // ---------------------------------------------------------------- words

  // The word that holds address a, and the part of it that an access of left bytes at a takes.
  function WordAt(a: word): word { a - a % 4 }

  function Chunk(a: word, left: nat): nat {
    var room := 4 - a % 4;
    if room > left then left else room
  }

  // Which words the kernel refuses to read, and to write by either request.
  datatype Faults = Faults(peek: set<word>, pokeText: set<word>, pokeData: set<word>)

  // Is every byte of the word at w among the n bytes at ea?
  predicate Whole(ea: word, n: nat, w: word) {
    Off(ea, w) + 4 <= n
  }

  predicate CanPoke(f: Faults, w: word) {
    w !in f.pokeText || w !in f.pokeData
  }

  predicate CanWrite(f: Faults, ea: word, n: nat, w: word) {
    && CanPoke(f, w)
    && (Whole(ea, n, w) || w !in f.peek)
  }

  // Can the words of the first d of the n bytes at ea be written, or read?
  predicate AllCanWrite(f: Faults, ea: word, n: nat, d: nat)
    requires d < TWO_32
  {
    forall i :: 0 <= i < d ==> CanWrite(f, ea, n, WordAt(At(ea, i)))
  }

  predicate AllCanRead(f: Faults, ea: word, d: nat)
    requires d < TWO_32
  {
    forall i :: 0 <= i < d ==> WordAt(At(ea, i)) !in f.peek
  }

  predicate WriteSucceeds(f: Faults, ea: word, n: nat)
    requires n < TWO_32
  {
    AllCanWrite(f, ea, n, n)
  }

  // done is where a write of n bytes stops: at the first byte whose word cannot be written.
  predicate WriteStops(f: Faults, ea: word, n: nat, done: nat)
    requires n < TWO_32
  {
    && done <= n
    && AllCanWrite(f, ea, n, done)
    && (done < n ==> (done == 0 || At(ea, done) % 4 == 0) && !CanWrite(f, ea, n, WordAt(At(ea, done))))
  }

  // The same for a read.
  predicate ReadStops(f: Faults, ea: word, n: nat, done: nat)
    requires n < TWO_32
  {
    && done <= n
    && AllCanRead(f, ea, done)
    && (done < n ==> WordAt(At(ea, done)) in f.peek)
  }

  /** Bytes within one word are written all or none. */
  lemma OneWordAtomic(f: Faults, ea: word, n: nat, done: nat)
    requires ea % 4 + n <= 4 && WriteStops(f, ea, n, done)
    ensures done == 0 || done == n
  {
  }

  lemma ChunkAddresses(a: word, left: nat, i: nat)
    requires i < Chunk(a, left)
    ensures At(a, i) == a + i && WordAt(At(a, i)) == WordAt(a) && At(a, i) % 4 == a % 4 + i
  {
  }

  lemma AtAt(ea: word, d: nat, i: nat)
    requires d + i <= TWO_32
    ensures At(At(ea, d), i) == At(ea, d + i)
  {
  }

  lemma WholeChunk(ea: word, n: nat, i: nat)
    requires i < n < 0x8000_0000 && (i == 0 || At(ea, i) % 4 == 0)
    ensures Chunk(At(ea, i), n - i) == 4 <==> Whole(ea, n, WordAt(At(ea, i)))
  {
  }

  // What one chunk adds to the bytes done.
  lemma ChunkWords(ea: word, n: nat, i: nat, k: nat)
    requires i < n < TWO_32 && i <= k < i + Chunk(At(ea, i), n - i)
    ensures WordAt(At(ea, k)) == WordAt(At(ea, i)) && At(ea, k) == At(ea, i) + (k - i)
  {
    AtAt(ea, i, k - i);
    ChunkAddresses(At(ea, i), n - i, k - i);
  }

  lemma ChunkCanWrite(f: Faults, ea: word, n: nat, i: nat)
    requires i < n < TWO_32 && AllCanWrite(f, ea, n, i) && CanWrite(f, ea, n, WordAt(At(ea, i)))
    ensures AllCanWrite(f, ea, n, i + Chunk(At(ea, i), n - i))
  {
    var c := Chunk(At(ea, i), n - i);
    forall k | i <= k < i + c ensures CanWrite(f, ea, n, WordAt(At(ea, k))) { ChunkWords(ea, n, i, k); }
  }

  lemma ChunkCanRead(f: Faults, ea: word, n: nat, i: nat)
    requires i < n < TWO_32 && AllCanRead(f, ea, i) && WordAt(At(ea, i)) !in f.peek
    ensures AllCanRead(f, ea, i + Chunk(At(ea, i), n - i))
  {
    var c := Chunk(At(ea, i), n - i);
    forall k | i <= k < i + c ensures WordAt(At(ea, k)) !in f.peek { ChunkWords(ea, n, i, k); }
  }

  lemma SliceChunk(mem: seq<bv8>, ea: word, n: nat, c: nat)
    requires IsImage(mem) && n < TWO_32 && c <= 4 - At(ea, n) % 4 && n + c < TWO_32
    ensures Slice(mem, ea, n + c) == Slice(mem, ea, n) + mem[At(ea, n)..At(ea, n) + c]
  {
  }

  // A chunk of a write at cur lies in one word: merging it there is writing it.
  function Merged(bytes: seq<bv8>, part: seq<bv8>, shift: nat): (r: seq<bv8>)
    requires |bytes| == 4 && shift + |part| <= 4
    ensures |r| == 4
  {
    bytes[..shift] + part + bytes[shift + |part|..]
  }

  function Poke(mem: seq<bv8>, w: word, bytes: seq<bv8>): (r: seq<bv8>)
    requires IsImage(mem) && w % 4 == 0 && |bytes| == 4
    ensures IsImage(r)
  {
    mem[..w] + bytes + mem[w + 4..]
  }

  lemma PokeIsWritten(mem: seq<bv8>, cur: word, part: seq<bv8>)
    requires IsImage(mem) && 0 < |part| <= 4 - cur % 4
    ensures var w := WordAt(cur);
            Poke(mem, w, Merged(mem[w..w + 4], part, cur % 4)) == Written(mem, cur, part)
  {
    var w, s := WordAt(cur), cur % 4;
    var l, r := Poke(mem, w, Merged(mem[w..w + 4], part, s)), Written(mem, cur, part);
    forall a: word | a < TWO_32 ensures l[a] == r[a] {
      if w <= a < w + 4 {
        assert a >= cur ==> Off(cur, a) == a - cur;
        assert a < cur ==> Off(cur, a) >= 4;
      } else {
        assert Off(cur, a) >= |part|;
      }
    }
  }

  predicate IsWord(v: bv32, bytes: seq<bv8>) {
    |bytes| == 4 && forall j :: 0 <= j < 4 ==> bytes[j] == ByteOf(v, j)
  }

  // memcpy into an uninitialised word: only the first |part| bytes are defined.
  method CopyIn(part: seq<bv8>, junk: bv32) returns (w: bv32)
    requires 0 < |part| <= 4
    ensures forall j :: 0 <= j < |part| ==> ByteOf(w, j) == part[j]
  {
    var n := |part|;
    var b1 := if n > 1 then part[1] else B1(junk);
    var b2 := if n > 2 then part[2] else B2(junk);
    var b3 := if n > 3 then part[3] else B3(junk);
    WordBytes(part[0], b1, b2, b3);
    w := Word(part[0], b1, b2, b3);
  }

  lemma MixIsMerged(word: bv32, part: seq<bv8>, prev: bv32, bytes: seq<bv8>, shift: nat)
    requires 0 < |part| <= 4 - shift && IsWord(prev, bytes)
    requires forall j :: 0 <= j < |part| ==> ByteOf(word, j) == part[j]
    ensures IsWord(Mix(ShlBytes(word, shift), prev, Mask(shift, |part|)), Merged(bytes, part, shift))
  {
    var w := Mix(ShlBytes(word, shift), prev, Mask(shift, |part|));
    forall j | 0 <= j < 4 ensures Merged(bytes, part, shift)[j] == ByteOf(w, j) {
      MergeBytes(word, prev, shift, |part|, j);
    }
  }

  // The word poked for a chunk, given the word that is there unless the chunk is whole.
  method MergedWord(part: seq<bv8>, junk: bv32, prev: bv32, ghost bytes: seq<bv8>, shift: nat) returns (w: bv32)
    requires 0 < |part| <= 4 - shift && |bytes| == 4 && (|part| == 4 || IsWord(prev, bytes))
    ensures IsWord(w, Merged(bytes, part, shift))
  {
    w := CopyIn(part, junk);
    if |part| != 4 {
      MixIsMerged(w, part, prev, bytes, shift);
      w := Mix(ShlBytes(w, shift), prev, Mask(shift, |part|));
    }
  }

  method StoreWord(v: bv32, ghost bytes: seq<bv8>, buffer: array<bv8>, at: nat)
    requires IsWord(v, bytes) && at + 4 <= buffer.Length
    modifies buffer
    ensures buffer[..at] == old(buffer[..at]) && buffer[at + 4..] == old(buffer[at + 4..])
    ensures buffer[at..at + 4] == bytes
  {
    buffer[at], buffer[at + 1], buffer[at + 2], buffer[at + 3] := B0(v), B1(v), B2(v), B3(v);
  }

  // The low bytes of v, lowest first, begin with s.
  predicate Holds(v: bv32, s: seq<bv8>)
    decreases |s|
  {
    s == [] || (B0(v) == s[0] && Holds(v >> 8, s[1..]))
  }

  lemma HoldsShifted(v: bv32, bytes: seq<bv8>, shift: nat)
    requires IsWord(v, bytes) && shift <= 4
    ensures Holds(ShrBytes(v, shift), bytes[shift..])
    decreases 4 - shift
  {
    if shift < 4 {
      HoldsShifted(v, bytes, shift + 1);
      ShrStep(v, shift);
      assert bytes[shift..][1..] == bytes[shift + 1..];
    }
  }

  method ShiftDown(v: bv32, ghost bytes: seq<bv8>, shift: nat) returns (r: bv32)
    requires IsWord(v, bytes) && shift <= 4
    ensures Holds(r, bytes[shift..])
  {
    HoldsShifted(v, bytes, shift);
    r := ShrBytes(v, shift);
  }

  // The copy loop: the nbytes low bytes of v0.
  method CopyBytes(v0: bv32, ghost bytes: seq<bv8>, nbytes: nat, buffer: array<bv8>, at: nat)
    requires Holds(v0, bytes) && nbytes <= |bytes| && at + nbytes <= buffer.Length
    modifies buffer
    ensures buffer[..at] == old(buffer[..at]) && buffer[at + nbytes..] == old(buffer[at + nbytes..])
    ensures buffer[at..at + nbytes] == bytes[..nbytes]
  {
    var v := v0;
    for i := 0 to nbytes
      invariant Holds(v, bytes[i..])
      invariant buffer[..at] == old(buffer[..at]) && buffer[at + i..] == old(buffer[at + i..])
      invariant buffer[at..at + i] == bytes[..i]
    {
      assert bytes[i..][1..] == bytes[i + 1..];
      buffer[at + i] := B0(v);
      v := v >> 8;
    }
  }

  lemma SubSlice(mem: seq<bv8>, w: word, s: nat, n: nat)
    requires IsImage(mem) && w % 4 == 0 && s + n <= 4
    ensures mem[w..w + 4][s..][..n] == mem[w + s..w + s + n]
    ensures n == 4 ==> mem[w..w + 4] == mem[w + s..w + s + n]
  {
    var l, r := mem[w..w + 4][s..][..n], mem[w + s..w + s + n];
    forall i | 0 <= i < n ensures l[i] == r[i] {
      assert mem[w..w + 4][s + i] == mem[w + s + i];
    }
  }

  class ProcessMemory {
    var mem: seq<bv8>
    var exited: bool
    var hasProcess: bool

    predicate Valid()
      reads this
    {
      IsImage(mem)
    }

    method WriteMemory(ea: word, buf: seq<bv8>, f: Faults, junk: bv32) returns (ok: nat, ghost done: nat)
      requires Valid() && |buf| < 0x8000_0000
      modifies this`mem
      ensures Valid()
      ensures exited || !hasProcess ==> ok == 0 && done == 0
      ensures !exited && hasProcess ==> WriteStops(f, ea, |buf|, done)
      ensures !exited && hasProcess ==> ok == if WriteSucceeds(f, ea, |buf|) then |buf| else 0
      ensures mem == Written(old(mem), ea, buf[..done])
    {
      done := 0;
      assert Written(mem, ea, buf[..0]) == mem;
      if exited || !hasProcess { return 0, 0; }
      ok := |buf|;
      var i, cur := 0, ea;
      while i < |buf|
        invariant i <= |buf| && cur == At(ea, i) && ok == |buf|
        invariant Valid() && mem == Written(old(mem), ea, buf[..i])
        invariant AllCanWrite(f, ea, |buf|, i)
        invariant 0 < i < |buf| ==> cur % 4 == 0
      {
        var nbytes := Chunk(cur, |buf| - i);
        WholeChunk(ea, |buf|, i);
        var stored := WriteChunk(cur, buf[i..i + nbytes], f, junk);
        if !stored { ok := 0; break; }
        WriteSplit(old(mem), ea, buf, i, nbytes);
        ChunkCanWrite(f, ea, |buf|, i);
        i := i + nbytes;
        cur := if cur + nbytes < TWO_32 then cur + nbytes else cur + nbytes - TWO_32;
      }
      done := i;
      assert buf[..|buf|] == buf;
    }

    // One word of a write; nothing is changed when the kernel refuses an access.
    method WriteChunk(cur: word, part: seq<bv8>, f: Faults, junk: bv32) returns (ok: bool)
      requires Valid() && 0 < |part| <= 4 - cur % 4
      modifies this`mem
      ensures Valid() && mem == if ok then Written(old(mem), cur, part) else old(mem)
      ensures ok == (CanPoke(f, WordAt(cur)) && (|part| == 4 || WordAt(cur) !in f.peek))
    {
      hide IsWord;
      hide Merged;
      hide Written;
      hide Poke;
      var shift := cur % 4;
      var prev := 0;
      if |part| != 4 {
        if cur - shift in f.peek { return false; }
        prev := PeekText(cur - shift);
      }
      ghost var bytes := mem[cur - shift..cur - shift + 4];
      var v := MergedWord(part, junk, prev, bytes, shift);
      var refused := cur - shift in f.pokeText;
      if refused { refused := cur - shift in f.pokeData; }
      if refused { return false; }
      PokeIsWritten(mem, cur, part);
      PokeText(cur - shift, v, Merged(bytes, part, shift));
      return true;
    }

    // A successful PTRACE_POKETEXT or PTRACE_POKEDATA.
    method PokeText(w: word, v: bv32, ghost bytes: seq<bv8>)
      requires Valid() && w % 4 == 0 && IsWord(v, bytes)
      modifies this`mem
      ensures Valid() && mem == Poke(old(mem), w, bytes)
    {
      mem := mem[..w] + [B0(v), B1(v), B2(v), B3(v)] + mem[w + 4..];
    }

    // A successful PTRACE_PEEKTEXT.
    method PeekText(w: word) returns (v: bv32)
      requires Valid() && w % 4 == 0
      ensures IsWord(v, mem[w..w + 4])
    {
      v := Word(mem[w], mem[w + 1], mem[w + 2], mem[w + 3]);
      WordBytes(mem[w], mem[w + 1], mem[w + 2], mem[w + 3]);
    }

    // One word of a read: all of it at once, or byte by byte.
    method ReadChunk(cur: word, nbytes: nat, buffer: array<bv8>, at: nat)
      requires Valid() && 0 < nbytes <= 4 - cur % 4 && at + nbytes <= buffer.Length
      modifies buffer
      ensures buffer[..at] == old(buffer[..at]) && buffer[at + nbytes..] == old(buffer[at + nbytes..])
      ensures buffer[at..at + nbytes] == mem[cur..cur + nbytes]
    {
      var shift := cur % 4;
      ghost var bytes := mem[cur - shift..cur - shift + 4];
      ghost var part := bytes[shift..];
      SubSlice(mem, cur - shift, shift, nbytes);
      var v := PeekText(cur - shift);
      if nbytes == 4 {
        StoreWord(v, bytes, buffer, at);
      } else {
        v := ShiftDown(v, bytes, shift);
        CopyBytes(v, part, nbytes, buffer, at);
      }
    }

    // The PEEKTEXT loop of _read_memory.
    method PeekMemory(ea: word, buffer: array<bv8>, size: nat, f: Faults) returns (n: nat)
      requires Valid() && size <= buffer.Length && size < 0x8000_0000
      modifies buffer
      ensures ReadStops(f, ea, size, n)
      ensures buffer[..n] == Slice(mem, ea, n) && buffer[n..] == old(buffer[n..])
    {
      n := 0;
      var cur := ea;
      while n < size
        invariant n <= size && cur == At(ea, n)
        invariant AllCanRead(f, ea, n)
        invariant buffer[..n] == Slice(mem, ea, n) && buffer[n..] == old(buffer[n..])
      {
        var shift := cur % 4;
        var nbytes := Chunk(cur, size - n);
        if cur - shift in f.peek { break; }
        label Chunk:
        ReadChunk(cur, nbytes, buffer, n);
        ghost var was := old@Chunk(buffer[..]);
        assert was[n..][nbytes..] == buffer[n + nbytes..];
        SliceChunk(mem, ea, n, nbytes);
        ChunkCanRead(f, ea, size, n);
        assert buffer[..n + nbytes] == buffer[..n] + buffer[n..n + nbytes];
        n := n + nbytes;
        cur := if cur + nbytes < TWO_32 then cur + nbytes else cur + nbytes - TWO_32;
      }
    }

    // The retry label of _read_memory is the head of this loop.  The memory file is not
    // read on Android, so the second attempt finds nothing more.
    method ReadMemory(ea: word, buffer: array<bv8>, size: nat, f: Faults) returns (n: nat)
      requires Valid() && size <= buffer.Length && size < 0x8000_0000
      modifies buffer
      ensures exited || !hasProcess ==> n == 0 && buffer[..] == old(buffer[..])
      ensures !exited && hasProcess ==> ReadStops(f, ea, size, n)
      ensures buffer[..n] == Slice(mem, ea, n) && buffer[n..] == old(buffer[n..])
    {
      n := 0;
      if exited || !hasProcess { return; }
      var triedMem, triedPeek, done := false, false, false;
      var viaFile := size > 3 * 4;
      while !done
        invariant done || viaFile || !triedMem
        invariant n <= size && buffer[..n] == Slice(mem, ea, n) && buffer[n..] == old(buffer[n..])
        invariant !triedPeek ==> n == 0 && buffer[..] == old(buffer[..])
        invariant !triedPeek && !done ==> viaFile == (size > 12) && !triedMem
        invariant triedPeek ==> ReadStops(f, ea, size, n)
        invariant done ==> ReadStops(f, ea, size, n)
        decreases if done then 0 else if viaFile then 1 else 2
      {
        if viaFile { triedMem := true; }
        if n != size && !triedPeek {
          n := PeekMemory(ea, buffer, size, f);
          triedPeek := true;
        }
        done := n >= size || triedMem;
        viaFile := true;
      }
    }
  }
}
