/** The law of software breakpoints: memory is the clean image with breakpoint code
    exactly at the breakpoints that have not been deleted, and every saved copy equals
    the clean bytes.  For each request the exact condition under which it keeps the law
    is given, torn writes included; a run keeps it throughout exactly when each of its
    requests meets its condition. */
module BptOverlay {
  import opened DebugEvents
  import opened LeastElement
  import opened WordMemory
  import opened SoftBreakpoints

  function Active(s: Soft): set<word> {
    s.bpts.Keys - s.removed
  }

  predicate Hit(s: Soft, k: word, a: word)
    requires k in s.bpts
  {
    Covers(k, |s.bpts[k].code|, a)
  }

  ghost predicate SavedClean(s: Soft, clean: seq<bv8>)
    requires IsImage(clean)
  {
    forall k :: k in s.bpts ==>
      && 0 < |s.bpts[k].code| <= 4
      && s.bpts[k].saved == Slice(clean, k, |s.bpts[k].code|)
  }

  ghost predicate Disjoint(s: Soft) {
    forall k, l :: k in Active(s) && l in Active(s) && k != l ==>
      Apart(k, |s.bpts[k].code|, l, |s.bpts[l].code|)
  }

  ghost predicate Overlay(s: Soft, clean: seq<bv8>) {
    && IsImage(s.mem) && IsImage(clean)
    && SavedClean(s, clean)
    && Disjoint(s)
    && (forall k :: k in Active(s) ==> Slice(s.mem, k, |s.bpts[k].code|) == s.bpts[k].code)
    && (forall a: word :: (forall k :: k in Active(s) ==> !Hit(s, k, a)) ==> s.mem[a] == clean[a])
  }

  // Are n bytes at ea clear of the other active breakpoints?
  ghost predicate Clear(s: Soft, ea: word, n: nat) {
    forall k :: k in Active(s) && k != ea ==> Apart(k, |s.bpts[k].code|, ea, n)
  }

  lemma CoversOwn(ea: word, n: nat, i: nat)
    requires i < n <= TWO_32
    ensures Covers(ea, n, At(ea, i))
  {
    assert Off(ea, At(ea, i)) == i;
  }

  lemma ApartSym(a: word, n: nat, b: word, m: nat)
    requires Apart(a, n, b, m)
    ensures Apart(b, m, a, n)
  {
  }

  /** The same breakpoints over the same clean image give the same memory. */
  lemma OverlayDetermines(s: Soft, r: Soft, clean: seq<bv8>)
    requires Overlay(s, clean) && Overlay(r, clean) && Active(s) == Active(r)
    requires forall k :: k in Active(s) ==> s.bpts[k].code == r.bpts[k].code
    ensures s.mem == r.mem
  {
    forall a: word | a < TWO_32 ensures s.mem[a] == r.mem[a] {
      if k :| k in Active(s) && Hit(s, k, a) {
        var i := Off(k, a);
        assert At(k, i) == a;
        assert Slice(s.mem, k, |s.bpts[k].code|)[i] == s.mem[a];
        assert Slice(r.mem, k, |r.bpts[k].code|)[i] == r.mem[a];
      } else {
        assert forall k :: k in Active(r) ==> !Hit(r, k, a);
      }
    }
  }

  // The byte of an active breakpoint in memory and in the clean image.
  lemma ActiveByte(s: Soft, clean: seq<bv8>, k: word, i: nat)
    requires Overlay(s, clean) && k in Active(s) && i < |s.bpts[k].code|
    ensures s.mem[At(k, i)] == s.bpts[k].code[i]
    ensures |s.bpts[k].saved| == |s.bpts[k].code| && clean[At(k, i)] == s.bpts[k].saved[i]
  {
    assert Slice(s.mem, k, |s.bpts[k].code|)[i] == s.mem[At(k, i)];
    assert Slice(clean, k, |s.bpts[k].code|)[i] == clean[At(k, i)];
  }

  // ---------------------------------------------------------------- torn accesses

  /** Code of n bytes is written whole or not at all, whatever the kernel refuses, exactly
      when it lies within one word. */
  lemma NeverTornIff(ea: word, n: nat)
    requires 0 < n <= 4
    ensures (forall e: Env :: WriteCount(e, ea, n) == 0 || WriteCount(e, ea, n) == n) <==> ea % 4 + n <= 4
  {
    if ea % 4 + n <= 4 {
      forall e: Env ensures WriteCount(e, ea, n) == 0 || WriteCount(e, ea, n) == n {
        if e.alive { OneWordAtomic(e.faults, ea, n, WriteDone(e.faults, ea, n)); }
      }
    } else {
      var w := WordAt(At(ea, n - 1));
      var e := Env(true, Faults({}, {w}, {w}), [], false);
      assert WordAt(ea) != w;
      assert !CanWrite(e.faults, ea, n, w) && CanWrite(e.faults, ea, n, WordAt(At(ea, 0)));
      assert 0 < WriteCount(e, ea, n) < n;
    }
  }

  // Behind a word that can be read, code that small covers no further word whole.
  lemma UnreadUnwritten(f: Faults, ea: word, n: nat, d: nat)
    requires n <= 4 && ReadStops(f, ea, n, d) && 0 < d < n
    ensures !CanWrite(f, ea, n, WordAt(At(ea, d)))
  {
    assert WordAt(At(ea, 0)) !in f.peek;
  }

  /** A write of breakpoint code that succeeds could have been read beforehand: no
      breakpoint is recorded with undefined bytes as its original bytes. */
  lemma WrittenWasRead(e: Env, ea: word, n: nat)
    requires 0 < n <= 4 && ReadCount(e, ea, n) > 0 && WriteCount(e, ea, n) == n
    ensures ReadCount(e, ea, n) == n
  {
    var d := ReadCount(e, ea, n);
    assert AllCanWrite(e.faults, ea, n, n);
    if d < n { UnreadUnwritten(e.faults, ea, n, d); }
  }

  lemma PokedSame(mem: seq<bv8>, ea: word, buf: seq<bv8>, e: Env)
    requires IsImage(mem) && |buf| < 0x8000_0000
    ensures var w := WriteCount(e, ea, |buf|);
            Poked(mem, ea, buf, e) == mem <==> buf[..w] == Slice(mem, ea, w)
  {
    var part := buf[..WriteCount(e, ea, |buf|)];
    ReadAfterWrite(mem, ea, part);
    if part == Slice(mem, ea, |part|) {
      forall a: word | a < TWO_32 ensures Written(mem, ea, part)[a] == mem[a] {
        if Off(ea, a) < |part| { assert At(ea, Off(ea, a)) == a; }
      }
    }
  }

  // A request that only changes memory keeps the law exactly when it changes nothing.
  lemma OnlyMemory(s: Soft, clean: seq<bv8>, ea: word, buf: seq<bv8>, e: Env)
    requires Overlay(s, clean) && |buf| < 0x8000_0000
    ensures var w := WriteCount(e, ea, |buf|);
            Overlay(s.(mem := Poked(s.mem, ea, buf, e)), clean) <==> buf[..w] == Slice(s.mem, ea, w)
  {
    PokedSame(s.mem, ea, buf, e);
    var r := s.(mem := Poked(s.mem, ea, buf, e));
    if Overlay(r, clean) {
      OverlayDetermines(s, r, clean);
    } else {
      assert r.mem == s.mem ==> r == s;
    }
  }

  // ---------------------------------------------------------------- additions

  // When does an addition keep the law?
  ghost predicate AddFits(s: Soft, ea: word, code: seq<bv8>, e: Env)
    requires IsImage(s.mem) && 0 < |code| <= 4
  {
    var w := WriteCount(e, ea, |code|);
    ReadCount(e, ea, |code|) == 0 ||
    if w < |code| then code[..w] == Slice(s.mem, ea, w)
    else Clear(s, ea, |code|) && (ea in Active(s) ==> s.bpts[ea].code == s.bpts[ea].saved)
  }

  /** Adding a breakpoint keeps the law exactly when nothing can be read there, or a write
      that stops early changes no byte, or the code is clear of the other breakpoints and
      there is none yet at its address: at an active one the program saves that
      breakpoint's code as the original bytes. */
  lemma AddKeepsOverlayIff(s: Soft, clean: seq<bv8>, ea: word, code: seq<bv8>, e: Env)
    requires Overlay(s, clean) && 0 < |code| <= 4 && |e.junk| == SAVED_SIZE
    ensures Overlay(Add(s, ea, code, e).0, clean) <==> AddFits(s, ea, code, e)
  {
    if ReadCount(e, ea, |code|) > 0 {
      if WriteCount(e, ea, |code|) < |code| {
        OnlyMemory(s, clean, ea, code, e);
      } else {
        WrittenWasRead(e, ea, |code|);
        AddDone(s, ea, code, e);
        var r := Add(s, ea, code, e).0;
        if AddFits(s, ea, code, e) { PlacedOverlay(s, clean, ea, code, r); }
        if Overlay(r, clean) { PlacedFits(s, clean, ea, code, r); }
      }
    }
  }

  // The state after a successful addition.
  function Placed(s: Soft, ea: word, code: seq<bv8>): Soft
    requires IsImage(s.mem) && |code| <= TWO_32
  {
    Soft(Written(s.mem, ea, code), s.bpts[ea := SoftBpt(Slice(s.mem, ea, |code|), code)], s.removed - {ea})
  }

  lemma AddDone(s: Soft, ea: word, code: seq<bv8>, e: Env)
    requires IsImage(s.mem) && 0 < |code| <= 4 && |e.junk| == SAVED_SIZE
    requires ReadCount(e, ea, |code|) == WriteCount(e, ea, |code|) == |code|
    ensures Add(s, ea, code, e) == (Placed(s, ea, code), true)
  {
    assert code[..|code|] == code;
    assert ReadInto(s.mem, ea, e.junk[..|code|], e) == Slice(s.mem, ea, |code|);
  }

  // Bytes clear of the active breakpoints are clean, and those of one that saved its own code.
  lemma CleanSlice(s: Soft, clean: seq<bv8>, ea: word, n: nat)
    requires Overlay(s, clean) && n <= TWO_32 && Clear(s, ea, n)
    requires ea in Active(s) ==> s.bpts[ea].code == s.bpts[ea].saved
    ensures Slice(s.mem, ea, n) == Slice(clean, ea, n)
  {
    forall i | 0 <= i < n ensures s.mem[At(ea, i)] == clean[At(ea, i)] {
      CoversOwn(ea, n, i);
      if ea in Active(s) && i < |s.bpts[ea].code| {
        ActiveByte(s, clean, ea, i);
      } else {
        assert Off(ea, At(ea, i)) == i;
        assert forall k :: k in Active(s) ==> !Hit(s, k, At(ea, i));
      }
    }
  }

  lemma PlacedOverlay(s: Soft, clean: seq<bv8>, ea: word, code: seq<bv8>, r: Soft)
    requires Overlay(s, clean) && 0 < |code| <= 4 && Clear(s, ea, |code|)
    requires ea in Active(s) ==> s.bpts[ea].code == s.bpts[ea].saved
    requires r == Placed(s, ea, code)
    ensures Overlay(r, clean)
  {
    CleanSlice(s, clean, ea, |code|);
    assert Active(r) == Active(s) + {ea};
    ReadAfterWrite(s.mem, ea, code);
    forall k | k in Active(r) ensures Slice(r.mem, k, |r.bpts[k].code|) == r.bpts[k].code {
      if k != ea { ApartSym(k, |s.bpts[k].code|, ea, |code|); WriteFrame(s.mem, ea, code, k, |s.bpts[k].code|); }
    }
    forall a: word | forall k :: k in Active(r) ==> !Hit(r, k, a) ensures r.mem[a] == clean[a] {
      PlacedElsewhere(s, clean, ea, code, r, a);
    }
    forall k, l | k in Active(r) && l in Active(r) && k != l
      ensures Apart(k, |r.bpts[k].code|, l, |r.bpts[l].code|)
    {
      if k == ea { ApartSym(l, |r.bpts[l].code|, k, |code|); }
    }
  }

  lemma PlacedElsewhere(s: Soft, clean: seq<bv8>, ea: word, code: seq<bv8>, r: Soft, a: word)
    requires Overlay(s, clean) && 0 < |code| <= 4 && r == Placed(s, ea, code)
    requires ea in Active(s) ==> s.bpts[ea].code == s.bpts[ea].saved
    requires forall k :: k in Active(r) ==> !Hit(r, k, a)
    ensures r.mem[a] == clean[a]
  {
    assert !Hit(r, ea, a);
    if ea in Active(s) && Hit(s, ea, a) {
      ActiveByte(s, clean, ea, Off(ea, a));
      assert At(ea, Off(ea, a)) == a;
    } else {
      forall k | k in Active(s) ensures !Hit(s, k, a) { assert k in Active(r) && !Hit(r, k, a); }
    }
  }

  lemma PlacedFits(s: Soft, clean: seq<bv8>, ea: word, code: seq<bv8>, r: Soft)
    requires Overlay(s, clean) && Overlay(r, clean) && 0 < |code| <= 4 && r == Placed(s, ea, code)
    ensures Clear(s, ea, |code|)
    ensures ea in Active(s) ==> s.bpts[ea].code == s.bpts[ea].saved
  {
    forall k | k in Active(s) && k != ea ensures Apart(k, |s.bpts[k].code|, ea, |code|) {
      assert k in Active(r) && ea in Active(r);
    }
    if ea in Active(s) {
      var b := s.bpts[ea];
      forall i | 0 <= i < |b.code| ensures b.code[i] == b.saved[i] {
        ActiveByte(s, clean, ea, i);
        assert Off(ea, At(ea, i)) == i;
        if i < |code| {
          ActiveByte(r, clean, ea, i);
          assert r.bpts[ea].saved[i] == s.mem[At(ea, i)];
        } else {
          forall k | k in Active(r) ensures !Hit(r, k, At(ea, i)) {
            if k != ea { assert Apart(k, |s.bpts[k].code|, ea, |b.code|) && Hit(s, ea, At(ea, i)); }
          }
        }
      }
    }
  }

  /** The law fails when an address is added twice: in an image of NOPs (0x90), adding
      at 0x1000 twice and deleting with the bytes saved last leaves the code there. */
  lemma ReAddLosesByte(e: Env)
    requires e.alive && e.faults == Faults({}, {}, {}) && |e.junk| == SAVED_SIZE
    ensures var s0 := Soft(seq(TWO_32, _ => 0x90), map[], {});
            var s1 := Add(s0, 0x1000, X86_BPT_CODE, e).0;
            var s2 := Add(s1, 0x1000, X86_BPT_CODE, e).0;
            0x1000 in s2.bpts && |s2.bpts[0x1000].saved| == 1 &&
            Del(s2, 0x1000, s2.bpts[0x1000].saved, e).0.mem[0x1000] == 0xCC
  {
    var s0 := Soft(seq(TWO_32, _ => 0x90), map[], {});
    var s1 := Add(s0, 0x1000, X86_BPT_CODE, e).0;
    AddDone(s0, 0x1000, X86_BPT_CODE, e);
    AddDone(s1, 0x1000, X86_BPT_CODE, e);
    var saved := Slice(s1.mem, 0x1000, 1);
    assert saved[..1] == saved;
  }

  /** The law fails when a write is torn: 32-bit Thumb code at 0x1002 lies in two words; when
      the second cannot be written, the addition fails, records nothing and leaves the
      first half of the code in memory. */
  lemma TornAddLeavesHalf(e: Env)
    requires e.alive && e.faults == Faults({}, {0x1004}, {0x1004}) && |e.junk| == SAVED_SIZE
    ensures var clean: seq<bv8> := seq(TWO_32, _ => 0);
            var (r, ok) := Add(Soft(clean, map[], {}), 0x1002, THUMB32_BPT, e);
            !ok && r.bpts == map[] && Slice(r.mem, 0x1002, 4) == THUMB32_BPT[..2] + [0, 0] && !Overlay(r, clean)
  {
    var clean: seq<bv8> := seq(TWO_32, _ => 0);
    var r := Add(Soft(clean, map[], {}), 0x1002, THUMB32_BPT, e).0;
    assert WriteStops(e.faults, 0x1002, 4, 2) by {
      assert forall i :: 0 <= i < 2 ==> WordAt(At(0x1002, i)) == 0x1000;
    }
    WriteStopsOnce(e.faults, 0x1002, 4, WriteCount(e, 0x1002, 4), 2);
    assert WordAt(At(0x1002, 0)) !in e.faults.peek;
    assert r.mem == Written(clean, 0x1002, THUMB32_BPT[..2]);
    assert Off(0x1002, 0x1002) == 0 && Off(0x1002, 0x1003) == 1 && Off(0x1002, 0x1004) == 2 && Off(0x1002, 0x1005) == 3;
    assert r.mem[0x1002] == 0xF0;
  }

  // ---------------------------------------------------------------- deletions

  // Does another active breakpoint than the one at ea cover a?
  ghost predicate HitOther(s: Soft, ea: word, a: word) {
    exists k :: k in Active(s) && k != ea && Hit(s, k, a)
  }

  // Are the bytes of the breakpoint at ea behind its first n the clean ones anyway?
  predicate CleanBehind(s: Soft, clean: seq<bv8>, ea: word, n: nat)
    requires IsImage(clean)
  {
    ea in Active(s) ==>
      forall i :: n <= i < |s.bpts[ea].code| && i < TWO_32 ==> s.bpts[ea].code[i] == clean[At(ea, i)]
  }

  // When does a deletion keep the law?
  ghost predicate DelFits(s: Soft, clean: seq<bv8>, ea: word, orig: seq<bv8>, e: Env)
    requires IsImage(s.mem) && IsImage(clean) && 0 < |orig| < 0x8000_0000
  {
    var w := WriteCount(e, ea, |orig|);
    if w < |orig| then orig[..w] == Slice(s.mem, ea, w)
    else
      && (forall i :: 0 <= i < |orig| ==> orig[i] == (if HitOther(s, ea, At(ea, i)) then s.mem else clean)[At(ea, i)])
      && CleanBehind(s, clean, ea, |orig|)
  }

  /** A deletion keeps the law exactly when a write that stops early changes no byte, and one
      that does not gives each byte its clean value, or leaves it as it is where another
      breakpoint covers it, up to the end of the code. */
  lemma DelKeepsOverlayIff(s: Soft, clean: seq<bv8>, ea: word, orig: seq<bv8>, e: Env)
    requires Overlay(s, clean) && 0 < |orig| < 0x8000_0000
    ensures Overlay(Del(s, ea, orig, e).0, clean) <==> DelFits(s, clean, ea, orig, e)
  {
    if WriteCount(e, ea, |orig|) < |orig| {
      OnlyMemory(s, clean, ea, orig, e);
    } else {
      assert orig[..|orig|] == orig;
      var r := Del(s, ea, orig, e).0;
      if DelFits(s, clean, ea, orig, e) { LiftedOverlay(s, clean, ea, orig, r); }
      if Overlay(r, clean) { LiftedFits(s, clean, ea, orig, r); }
    }
  }

  function Lifted(s: Soft, ea: word, orig: seq<bv8>): Soft
    requires IsImage(s.mem) && |orig| <= TWO_32
  {
    s.(mem := Written(s.mem, ea, orig), removed := s.removed + {ea})
  }

  lemma LiftedOverlay(s: Soft, clean: seq<bv8>, ea: word, orig: seq<bv8>, r: Soft)
    requires Overlay(s, clean) && 0 < |orig| < 0x8000_0000 && r == Lifted(s, ea, orig)
    requires forall i :: 0 <= i < |orig| ==> orig[i] == (if HitOther(s, ea, At(ea, i)) then s.mem else clean)[At(ea, i)]
    requires CleanBehind(s, clean, ea, |orig|)
    ensures Overlay(r, clean)
  {
    assert Active(r) == Active(s) - {ea};
    forall k | k in Active(r) ensures Slice(r.mem, k, |r.bpts[k].code|) == r.bpts[k].code {
      forall i | 0 <= i < |s.bpts[k].code| ensures r.mem[At(k, i)] == s.bpts[k].code[i] {
        ActiveByte(s, clean, k, i);
        assert Off(k, At(k, i)) == i && Hit(s, k, At(k, i));
        if Off(ea, At(k, i)) < |orig| { assert At(ea, Off(ea, At(k, i))) == At(k, i); }
      }
    }
    forall a: word | forall k :: k in Active(r) ==> !Hit(r, k, a) ensures r.mem[a] == clean[a] {
      assert !HitOther(s, ea, a) by { assert forall k :: k in Active(r) ==> Hit(r, k, a) == Hit(s, k, a); }
      assert At(ea, Off(ea, a)) == a;
      if Off(ea, a) >= |orig| {
        if ea in Active(s) && Hit(s, ea, a) { ActiveByte(s, clean, ea, Off(ea, a)); }
      }
    }
  }

  lemma LiftedFits(s: Soft, clean: seq<bv8>, ea: word, orig: seq<bv8>, r: Soft)
    requires Overlay(s, clean) && Overlay(r, clean) && 0 < |orig| < 0x8000_0000 && r == Lifted(s, ea, orig)
    ensures forall i :: 0 <= i < |orig| ==> orig[i] == (if HitOther(s, ea, At(ea, i)) then s.mem else clean)[At(ea, i)]
    ensures CleanBehind(s, clean, ea, |orig|)
  {
    assert Active(r) == Active(s) - {ea};
    forall i | 0 <= i < |orig| ensures orig[i] == (if HitOther(s, ea, At(ea, i)) then s.mem else clean)[At(ea, i)] {
      var a := At(ea, i);
      assert Off(ea, a) == i && r.mem[a] == orig[i];
      if k :| k in Active(s) && k != ea && Hit(s, k, a) {
        ActiveByte(s, clean, k, Off(k, a));
        ActiveByte(r, clean, k, Off(k, a));
        assert At(k, Off(k, a)) == a;
      } else {
        assert forall k :: k in Active(r) ==> !Hit(r, k, a);
      }
    }
    if ea in Active(s) {
      forall i | |orig| <= i < |s.bpts[ea].code| ensures s.bpts[ea].code[i] == clean[At(ea, i)] {
        var a := At(ea, i);
        ActiveByte(s, clean, ea, i);
        assert Off(ea, a) == i && Hit(s, ea, a);
        forall k | k in Active(r) ensures !Hit(r, k, a) {
          assert Apart(k, |s.bpts[k].code|, ea, |s.bpts[ea].code|);
        }
      }
    }
  }

  // The usual case: the clean bytes of a breakpoint that no other one touches.
  predicate Keeps(s: Soft, ea: word, n: nat) {
    ea in Active(s) ==> |s.bpts[ea].code| == n
  }

  lemma DelOverlay(s: Soft, clean: seq<bv8>, ea: word, orig: seq<bv8>, e: Env)
    requires Overlay(s, clean) && 0 < |orig| < 0x8000_0000 && orig == Slice(clean, ea, |orig|)
    requires Clear(s, ea, |orig|) && Keeps(s, ea, |orig|) && WriteCount(e, ea, |orig|) == |orig|
    ensures Overlay(Del(s, ea, orig, e).0, clean)
  {
    forall i | 0 <= i < |orig| ensures !HitOther(s, ea, At(ea, i)) { CoversOwn(ea, |orig|, i); }
    hide Apart;
    hide HitOther;
    DelKeepsOverlayIff(s, clean, ea, orig, e);
  }

  // ---------------------------------------------------------------- the other requests

  lemma ForgetOverlay(s: Soft, clean: seq<bv8>)
    requires Overlay(s, clean)
    ensures Overlay(Forget(s), clean)
  {
    var r := Forget(s);
    assert Active(r) == Active(s);
    forall a: word | forall k :: k in Active(r) ==> !Hit(r, k, a) ensures r.mem[a] == clean[a] {
      forall k | k in Active(s) ensures !Hit(s, k, a) { assert !Hit(r, k, a); }
    }
  }

  // When does a client write keep the law?
  ghost predicate PatchFits(s: Soft, clean: seq<bv8>, ea: word, buf: seq<bv8>, e: Env)
    requires IsImage(s.mem) && IsImage(clean) && |buf| < 0x8000_0000
  {
    forall k, i :: k in s.bpts && 0 <= i < WriteCount(e, ea, |buf|) && Hit(s, k, At(ea, i)) ==>
      buf[i] == clean[At(ea, i)] && (k in Active(s) ==> buf[i] == s.mem[At(ea, i)])
  }

  /** A client write changes the clean image and the memory alike.  It keeps the law exactly
      when it changes no byte of a recorded breakpoint, deleted ones included as long as
      the application has not run. */
  lemma PatchKeepsOverlayIff(s: Soft, clean: seq<bv8>, ea: word, buf: seq<bv8>, e: Env)
    requires Overlay(s, clean) && |buf| < 0x8000_0000
    ensures Overlay(Patch(s, ea, buf, e), Poked(clean, ea, buf, e)) <==> PatchFits(s, clean, ea, buf, e)
  {
    if PatchFits(s, clean, ea, buf, e) { PatchOverlay(s, clean, ea, buf, e); }
    if Overlay(Patch(s, ea, buf, e), Poked(clean, ea, buf, e)) { PatchedFits(s, clean, ea, buf, e); }
  }

  lemma PatchOverlay(s: Soft, clean: seq<bv8>, ea: word, buf: seq<bv8>, e: Env)
    requires Overlay(s, clean) && |buf| < 0x8000_0000 && PatchFits(s, clean, ea, buf, e)
    ensures Overlay(Patch(s, ea, buf, e), Poked(clean, ea, buf, e))
  {
    var r, clean' := Patch(s, ea, buf, e), Poked(clean, ea, buf, e);
    var w := WriteCount(e, ea, |buf|);
    forall k, i | k in s.bpts && 0 <= i < |s.bpts[k].code|
      ensures clean'[At(k, i)] == clean[At(k, i)] && (k in Active(s) ==> r.mem[At(k, i)] == s.mem[At(k, i)])
    {
      var a := At(k, i);
      assert Off(k, a) == i && Hit(s, k, a);
      if Off(ea, a) < w { assert At(ea, Off(ea, a)) == a; }
    }
    forall k | k in s.bpts
      ensures Slice(clean', k, |s.bpts[k].code|) == Slice(clean, k, |s.bpts[k].code|)
      ensures k in Active(s) ==> Slice(r.mem, k, |s.bpts[k].code|) == Slice(s.mem, k, |s.bpts[k].code|)
    {
    }
    forall a: word | forall k :: k in Active(r) ==> !Hit(r, k, a) ensures r.mem[a] == clean'[a] {
      forall k | k in Active(s) ensures !Hit(s, k, a) { assert !Hit(r, k, a); }
    }
  }

  lemma PatchedFits(s: Soft, clean: seq<bv8>, ea: word, buf: seq<bv8>, e: Env)
    requires Overlay(s, clean) && |buf| < 0x8000_0000
    requires Overlay(Patch(s, ea, buf, e), Poked(clean, ea, buf, e))
    ensures PatchFits(s, clean, ea, buf, e)
  {
    var r, clean' := Patch(s, ea, buf, e), Poked(clean, ea, buf, e);
    forall k, i | k in s.bpts && 0 <= i < WriteCount(e, ea, |buf|) && Hit(s, k, At(ea, i))
      ensures buf[i] == clean[At(ea, i)] && (k in Active(s) ==> buf[i] == s.mem[At(ea, i)])
    {
      var a, n := At(ea, i), |s.bpts[k].code|;
      var j := Off(k, a);
      assert At(k, j) == a && Off(ea, a) == i;
      assert Slice(clean, k, n)[j] == clean[a] && Slice(clean', k, n)[j] == clean'[a];
      if k in Active(s) {
        ActiveByte(s, clean, k, j);
        assert k in Active(r);
        ActiveByte(r, clean', k, j);
      }
    }
  }

  // ---------------------------------------------------------------- runs

  datatype Op =
    | OpAdd(ea: word, code: seq<bv8>)
    | OpDel(ea: word, orig: seq<bv8>)
    | OpForget
    | OpPatch(ea: word, buf: seq<bv8>)

  datatype Call = Call(op: Op, env: Env)

  // The sizes the program works with.
  predicate Sized(c: Call) {
    match c.op
    case OpAdd(_, code) => 0 < |code| <= 4 && |c.env.junk| == SAVED_SIZE
    case OpDel(_, orig) => 0 < |orig| < 0x8000_0000
    case OpForget => true
    case OpPatch(_, buf) => |buf| < 0x8000_0000
  }

  predicate AllSized(calls: seq<Call>) {
    forall i :: 0 <= i < |calls| ==> Sized(calls[i])
  }

  ghost predicate Fits(s: Soft, clean: seq<bv8>, c: Call)
    requires IsImage(s.mem) && IsImage(clean) && Sized(c)
  {
    match c.op
    case OpAdd(ea, code) => AddFits(s, ea, code, c.env)
    case OpDel(ea, orig) => DelFits(s, clean, ea, orig, c.env)
    case OpForget => true
    case OpPatch(ea, buf) => PatchFits(s, clean, ea, buf, c.env)
  }

  ghost function Step(s: Soft, clean: seq<bv8>, c: Call): (r: (Soft, seq<bv8>))
    requires IsImage(s.mem) && IsImage(clean) && Sized(c)
    ensures IsImage(r.0.mem) && IsImage(r.1)
  {
    match c.op
    case OpAdd(ea, code) => (Add(s, ea, code, c.env).0, clean)
    case OpDel(ea, orig) => (Del(s, ea, orig, c.env).0, clean)
    case OpForget => (Forget(s), clean)
    case OpPatch(ea, buf) => (Patch(s, ea, buf, c.env), Poked(clean, ea, buf, c.env))
  }

  ghost predicate FitsAll(s: Soft, clean: seq<bv8>, calls: seq<Call>)
    requires IsImage(s.mem) && IsImage(clean) && AllSized(calls)
    decreases |calls|
  {
    calls == [] || (Fits(s, clean, calls[0]) &&
      var (s', clean') := Step(s, clean, calls[0]); FitsAll(s', clean', calls[1..]))
  }

  ghost function Run(s: Soft, clean: seq<bv8>, calls: seq<Call>): (r: (Soft, seq<bv8>))
    requires IsImage(s.mem) && IsImage(clean) && AllSized(calls)
    decreases |calls|
  {
    if calls == [] then (s, clean)
    else var (s', clean') := Step(s, clean, calls[0]); Run(s', clean', calls[1..])
  }

  lemma StepKeepsIff(s: Soft, clean: seq<bv8>, c: Call)
    requires Overlay(s, clean) && Sized(c)
    ensures var (r, clean') := Step(s, clean, c); Overlay(r, clean') <==> Fits(s, clean, c)
  {
    match c.op {
      case OpAdd(ea, code) => AddKeepsOverlayIff(s, clean, ea, code, c.env);
      case OpDel(ea, orig) => DelKeepsOverlayIff(s, clean, ea, orig, c.env);
      case OpForget => ForgetOverlay(s, clean);
      case OpPatch(ea, buf) => PatchKeepsOverlayIff(s, clean, ea, buf, c.env);
    }
  }

  // Does the law hold after the first n calls?
  ghost predicate LawAfter(s: Soft, clean: seq<bv8>, calls: seq<Call>, n: nat)
    requires IsImage(s.mem) && IsImage(clean) && AllSized(calls) && n <= |calls|
  {
    var (r, clean') := Run(s, clean, calls[..n]); Overlay(r, clean')
  }

  lemma LawAfterStep(s: Soft, clean: seq<bv8>, calls: seq<Call>, n: nat)
    requires IsImage(s.mem) && IsImage(clean) && AllSized(calls) && 0 < n <= |calls|
    ensures var (s', clean') := Step(s, clean, calls[0]);
            LawAfter(s, clean, calls, n) == LawAfter(s', clean', calls[1..], n - 1)
  {
    assert calls[..n][1..] == calls[1..][..n - 1];
  }

  /** The law over runs: it holds all along a run exactly when every request of the run
      meets its condition. */
  lemma {:induction false} RunOverlayIff(s: Soft, clean: seq<bv8>, calls: seq<Call>)
    requires Overlay(s, clean) && AllSized(calls)
    ensures (forall n :: 0 <= n <= |calls| ==> LawAfter(s, clean, calls, n)) <==> FitsAll(s, clean, calls)
    ensures FitsAll(s, clean, calls) ==> var (r, clean') := Run(s, clean, calls); Overlay(r, clean')
    decreases |calls|
  {
    assert LawAfter(s, clean, calls, 0);
    assert calls[..|calls|] == calls;
    if calls != [] {
      var (s', clean') := Step(s, clean, calls[0]);
      StepKeepsIff(s, clean, calls[0]);
      assert LawAfter(s', clean', calls[1..], 0) == Overlay(s', clean');
      forall n | 0 < n <= |calls| ensures LawAfter(s, clean, calls, n) == LawAfter(s', clean', calls[1..], n - 1) {
        LawAfterStep(s, clean, calls, n);
      }
      if Overlay(s', clean') {
        RunOverlayIff(s', clean', calls[1..]);
        LawRest(s, clean, calls);
      } else {
        assert !LawAfter(s, clean, calls, 1);
      }
    }
  }

  lemma LawRest(s: Soft, clean: seq<bv8>, calls: seq<Call>)
    requires IsImage(s.mem) && IsImage(clean) && AllSized(calls) && calls != [] && LawAfter(s, clean, calls, 0)
    ensures var (s', clean') := Step(s, clean, calls[0]);
            (forall n :: 0 <= n <= |calls| ==> LawAfter(s, clean, calls, n))
            <==> (forall n :: 0 <= n <= |calls[1..]| ==> LawAfter(s', clean', calls[1..], n))
  {
    var (s', clean') := Step(s, clean, calls[0]);
    forall n | 0 < n <= |calls| ensures LawAfter(s, clean, calls, n) == LawAfter(s', clean', calls[1..], n - 1) {
      LawAfterStep(s, clean, calls, n);
    }
    if forall n :: 0 <= n <= |calls| ==> LawAfter(s, clean, calls, n) {
      forall n | 0 <= n <= |calls[1..]| ensures LawAfter(s', clean', calls[1..], n) {
        assert LawAfter(s, clean, calls, n + 1);
      }
    }
  }

  lemma FreshOverlay(mem: seq<bv8>)
    requires IsImage(mem)
    ensures Overlay(Soft(mem, map[], {}), mem)
  {
  }

  /** A debugger module starts with an empty table: the memory it finds is the clean image. */
  lemma FreshRunOverlay(mem: seq<bv8>, calls: seq<Call>)
    requires IsImage(mem) && AllSized(calls) && FitsAll(Soft(mem, map[], {}), mem, calls)
    ensures var (r, clean) := Run(Soft(mem, map[], {}), mem, calls); Overlay(r, clean)
  {
    FreshOverlay(mem);
    RunOverlayIff(Soft(mem, map[], {}), mem, calls);
  }

  // ---------------------------------------------------------------- restoring

  // Is a among the bytes that writing back the breakpoint at k reaches?
  ghost predicate Reached(s: Soft, e: Env, k: word, a: word)
    requires k in s.bpts && |s.bpts[k].code| <= 4
  {
    Covers(k, WriteCount(e, k, |s.bpts[k].code|), a)
  }

  lemma RestoreOneAt(s: Soft, clean: seq<bv8>, k: word, e: Env, a: word)
    requires IsImage(s.mem) && IsImage(clean) && SavedClean(s, clean) && k in s.bpts
    ensures RestoreOne(s, k, e).mem[a] == if Reached(s, e, k, a) then clean[a] else s.mem[a]
  {
    var i := Off(k, a);
    assert At(k, i) == a;
    if Reached(s, e, k, a) { assert Slice(clean, k, |s.bpts[k].code|)[i] == clean[a]; }
  }

  lemma ReachedRest(s: Soft, s1: Soft, todo: set<word>, k: word, e: Env, a: word)
    requires s1.bpts == s.bpts && k in todo && todo <= s.bpts.Keys
    requires forall l :: l in s.bpts ==> |s.bpts[l].code| <= 4
    ensures (exists l :: l in todo && Reached(s, e, l, a))
            <==> Reached(s, e, k, a) || exists l :: l in todo - {k} && Reached(s1, e, l, a)
  {
    forall l | l in todo ensures Reached(s1, e, l, a) == Reached(s, e, l, a) {}
    if l :| l in todo && Reached(s, e, l, a) && l != k { assert l in todo - {k} && Reached(s1, e, l, a); }
  }

  lemma {:induction false} RestoreAllAt(s: Soft, clean: seq<bv8>, todo: set<word>, e: Env, a: word)
    requires IsImage(s.mem) && IsImage(clean) && SavedClean(s, clean) && todo <= s.bpts.Keys
    ensures SmallSaved(s)
    ensures RestoreAll(s, todo, e).bpts == s.bpts
    ensures RestoreAll(s, todo, e).mem[a] == if exists k :: k in todo && Reached(s, e, k, a) then clean[a] else s.mem[a]
    decreases |todo|
  {
    assert SmallSaved(s);
    if todo != {} {
      var k := Least(todo);
      var s1 := RestoreOne(s, k, e);
      RestoreOneAt(s, clean, k, e, a);
      RestoreAllAt(s1, clean, todo - {k}, e, a);
      ReachedRest(s, s1, todo, k, e, a);
    }
  }

  /** restore_broken_breakpoints: a byte is not clean afterwards exactly when it was not
      before and no write reached it; all is clean when every write went through. */
  lemma RestoreCleans(s: Soft, clean: seq<bv8>, e: Env)
    requires Overlay(s, clean)
    ensures SmallSaved(s) && Restore(s, e).bpts == map[]
    ensures forall a: word :: Restore(s, e).mem[a] != clean[a] <==>
              s.mem[a] != clean[a] && forall k :: k in s.bpts ==> !Reached(s, e, k, a)
    ensures (forall k :: k in Active(s) ==> WriteCount(e, k, |s.bpts[k].code|) == |s.bpts[k].code|) ==>
              Restore(s, e).mem == clean
  {
    assert SmallSaved(s);
    var r := Restore(s, e);
    forall a: word
      ensures r.mem[a] != clean[a] <==> s.mem[a] != clean[a] && forall k :: k in s.bpts ==> !Reached(s, e, k, a)
    {
      RestoreAllAt(s, clean, s.bpts.Keys, e, a);
    }
    if forall k :: k in Active(s) ==> WriteCount(e, k, |s.bpts[k].code|) == |s.bpts[k].code| {
      forall a: word | a < TWO_32 ensures r.mem[a] == clean[a] {
        if s.mem[a] != clean[a] {
          var k :| k in Active(s) && Hit(s, k, a);
          assert Reached(s, e, k, a);
        }
      }
    }
  }
}
