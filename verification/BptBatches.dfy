/** What a batch of breakpoints does to memory, and when deleting it with the bytes it
    reported gives the memory back: at the even address on ARM, whatever the mix of ARM
    and Thumb instructions and hardware breakpoints, exactly when every byte of code that
    was written is written back; and in general not at the odd address that was added. */
module BptBatches {
  import opened DebugEvents
  import opened WordMemory
  import opened SoftBreakpoints
  import opened BptOverlay

  // The code dbg_update_bpts writes for an entry at ea, by the instruction in the image.
  function CodeAt(image: seq<bv8>, arm: bool, ea: word): (c: seq<bv8>)
    requires IsImage(image)
    ensures 0 < |c| <= 4
  {
    if !IsThumb(arm, ea) then DefaultCode(arm)
    else if IsThumb32(Slice(image, ea - 1, 2)) then THUMB32_BPT
    else THUMB16_BPT
  }

  function Width(image: seq<bv8>, arm: bool, ea: word): (n: nat)
    requires IsImage(image)
    ensures 0 < n <= 4
  {
    |CodeAt(image, arm, ea)|
  }

  // Is b an entry for a free place clear of the active breakpoints, or for a debug register?
  ghost predicate Free(s: Soft, clean: seq<bv8>, arm: bool, b: UpdateBpt)
    requires IsImage(clean)
  {
    b.soft ==> Home(arm, b.ea) !in Active(s) && Clear(s, Home(arm, b.ea), Width(clean, arm, b.ea))
  }

  // Entries at free places clear of each other.
  ghost predicate Spread(s: Soft, clean: seq<bv8>, arm: bool, bs: seq<UpdateBpt>)
    requires IsImage(clean)
  {
    && (forall i :: 0 <= i < |bs| ==> Free(s, clean, arm, bs[i]))
    && (forall i, j :: 0 <= i < j < |bs| && bs[i].soft && bs[j].soft ==>
          Apart(Home(arm, bs[i].ea), Width(clean, arm, bs[i].ea), Home(arm, bs[j].ea), Width(clean, arm, bs[j].ea)))
  }

  // Is the code of no entry torn?  By NeverTornIff only code across two words can be.
  ghost predicate Untorn(e: Env, ea: word, n: nat)
    requires n < 0x8000_0000
  {
    WriteCount(e, ea, n) == 0 || WriteCount(e, ea, n) == n
  }

  ghost predicate AllUntorn(clean: seq<bv8>, arm: bool, bs: seq<UpdateBpt>, envs: seq<Env>)
    requires IsImage(clean) && |bs| == |envs|
  {
    forall i :: 0 <= i < |bs| && bs[i].soft ==> Untorn(envs[i], Home(arm, bs[i].ea), Width(clean, arm, bs[i].ea))
  }

  // The entries of a batch that are now in use.
  function Added(bs: seq<UpdateBpt>): seq<UpdateBpt>
    decreases |bs|
  {
    if bs == [] then [] else (if bs[0].code == BPT_OK then [bs[0]] else []) + Added(bs[1..])
  }

  // The entries with the address their breakpoint is at.
  function Homed(arm: bool, bs: seq<UpdateBpt>): (r: seq<UpdateBpt>)
    ensures |r| == |bs|
    ensures forall i :: 0 <= i < |bs| ==> r[i] == bs[i].(ea := Home(arm, bs[i].ea))
  {
    seq(|bs|, i requires 0 <= i < |bs| => bs[i].(ea := Home(arm, bs[i].ea)))
  }

  // s1 has the breakpoints of s, and further ones only at the given addresses.
  predicate Extends(s1: Soft, s: Soft, addresses: set<word>) {
    && Active(s) <= Active(s1) <= Active(s) + addresses
    && (forall k :: k in Active(s) ==> s1.bpts[k].code == s.bpts[k].code)
  }

  // The addresses of the software breakpoints.
  function Addresses(bs: seq<UpdateBpt>): set<word> {
    set i | 0 <= i < |bs| && bs[i].soft :: bs[i].ea
  }

  lemma ExtendsOn(s: Soft, s1: Soft, s2: Soft, first: set<word>, rest: set<word>)
    requires Extends(s1, s, first) && Extends(s2, s1, rest)
    ensures Extends(s2, s, first + rest)
  {
  }

  // ---------------------------------------------------------------- one entry

  lemma InWord(ea: word, n: nat)
    requires ea % 4 + n <= 4
    ensures forall i :: 0 <= i < n ==> WordAt(At(ea, i)) == WordAt(At(ea, 0))
  {
  }

  lemma ReadInWord(e: Env, ea: word, n: nat)
    requires ea % 4 + n <= 4 && ReadCount(e, ea, n) > 0
    ensures ReadCount(e, ea, n) == n
  {
    InWord(ea, n);
    assert ReadStops(e.faults, ea, n, ReadCount(e, ea, n));
  }

  lemma SliceHalves(mem: seq<bv8>, ea: word)
    requires IsImage(mem)
    ensures Slice(mem, ea, 2) + Slice(mem, At(ea, 2), 2) == Slice(mem, ea, 4)
  {
    AtAt(ea, 2, 0);
    AtAt(ea, 2, 1);
  }

  // What read_bpt_orgbytes asks for is the code for the instruction there, and what it
  // reports are the bytes there, unless only some of an ARM instruction could be read.
  lemma LocateCode(s: Soft, arm: bool, ea: word, e: Env, opcode: seq<bv8>)
    requires IsImage(s.mem)
    ensures var spot, at, code := Locate(s, arm, false, ea, e), Home(arm, ea), CodeAt(s.mem, arm, ea);
            spot.Some? ==>
              && spot.value.ea == at && BptCode(arm, spot.value.len, opcode) == Some(code)
              && ReadCount(e, at, |code|) > 0
              && (ReadCount(e, at, |code|) == |code| ==> spot.value.orgbytes == Slice(s.mem, at, |code|))
  {
    if Locate(s, arm, false, ea, e).Some? {
      if IsThumb(arm, ea) { LocateThumb(s, ea, e); } else { LocateWhole(s, arm, ea, e); }
    }
  }

  lemma LocateWhole(s: Soft, arm: bool, ea: word, e: Env)
    requires IsImage(s.mem) && !IsThumb(arm, ea) && Locate(s, arm, false, ea, e).Some?
    ensures var spot, code := Locate(s, arm, false, ea, e).value, DefaultCode(arm);
            && spot.ea == ea && spot.len == |code| && code[..|code|] == code
            && ReadCount(e, ea, |code|) > 0
            && (ReadCount(e, ea, |code|) == |code| ==> spot.orgbytes == Slice(s.mem, ea, |code|))
  {
    hide Slice;
    hide ReadCount;
    hide OrgBytes;
    if ReadCount(e, ea, |DefaultCode(arm)|) == |DefaultCode(arm)| { ReadWhole(s, ea, |DefaultCode(arm)|, e); }
  }

  lemma LocateThumb(s: Soft, ea: word, e: Env)
    requires IsImage(s.mem) && IsThumb(true, ea) && Locate(s, true, false, ea, e).Some?
    ensures var spot, at, code := Locate(s, true, false, ea, e).value, ea - 1, CodeAt(s.mem, true, ea);
            && spot.ea == at && spot.len == (if |code| == 4 then 2 + USE_THUMB32_BPT else 2)
            && ReadCount(e, at, |code|) > 0 && spot.orgbytes == Slice(s.mem, at, |code|)
  {
    hide Slice;
    hide ReadCount;
    hide OrgBytes;
    hide ReadInto;
    hide IsThumb32;
    var at: word := ea - 1;
    ReadHalf(s, at, e);
    if IsThumb32(Slice(s.mem, at, 2)) {
      assert At(at, 2) % 4 + 2 <= 4;
      ReadHalf(s, At(at, 2), e);
      SliceHalves(s.mem, at);
      FirstHalfRead(e, at);
    }
  }

  lemma ReadWhole(s: Soft, ea: word, n: nat, e: Env)
    requires IsImage(s.mem) && n <= 4 && ReadCount(e, ea, n) == n
    ensures OrgBytes(s, false, ea, n, e) == Slice(s.mem, ea, n)
  {
  }

  lemma ReadHalf(s: Soft, ea: word, e: Env)
    requires IsImage(s.mem) && ea % 4 + 2 <= 4 && ReadCount(e, ea, 2) > 0
    ensures ReadCount(e, ea, 2) == 2 && OrgBytes(s, false, ea, 2, e) == Slice(s.mem, ea, 2)
    ensures ReadInto(s.mem, ea, ZEROS[..2], e) == Slice(s.mem, ea, 2)
  {
    ReadInWord(e, ea, 2);
    ReadWhole(s, ea, 2, e);
  }

  lemma FirstHalfRead(e: Env, ea: word)
    requires ReadCount(e, ea, 2) > 0
    ensures ReadCount(e, ea, 4) > 0
  {
    assert e.alive && WordAt(At(ea, 0)) !in e.faults.peek;
  }

  lemma SameCode(s: Soft, clean: seq<bv8>, arm: bool, b: UpdateBpt)
    requires Overlay(s, clean) && Free(s, clean, arm, b) && b.soft
    ensures CodeAt(s.mem, arm, b.ea) == CodeAt(clean, arm, b.ea)
  {
    var at, n := Home(arm, b.ea), Width(clean, arm, b.ea);
    CleanSlice(s, clean, at, n);
    if IsThumb(arm, b.ea) {
      assert Slice(s.mem, at, 2) == Slice(s.mem, at, n)[..2];
      assert Slice(clean, at, 2) == Slice(clean, at, n)[..2];
    }
  }

  predicate IsGood(clean: seq<bv8>, arm: bool, d: UpdateBpt)
    requires IsImage(clean)
  {
    d.soft ==> d.orgbytes == Slice(clean, Home(arm, d.ea), Width(clean, arm, d.ea))
  }

  // An entry that comes out well has its code in memory, or on x86 a debug register, and
  // reports the clean bytes.
  lemma AddEntryDone(s: Soft, clean: seq<bv8>, arm: bool, b: UpdateBpt, e: Env)
    requires Overlay(s, clean) && |e.junk| == SAVED_SIZE && Free(s, clean, arm, b) && b.soft
    ensures var (s1, b1) := AddEntry(s, arm, false, b, e);
            var at, code := Home(arm, b.ea), CodeAt(clean, arm, b.ea);
            && b1.ea == b.ea && b1.soft
            && (s1 == s || s1 == Add(s, at, code, e).0)
            && (b1.code == BPT_OK ==> IsGood(clean, arm, b1) && (arm ==> s1 == Placed(s, at, code)))
  {
    var at, code, spot := Home(arm, b.ea), CodeAt(clean, arm, b.ea), Locate(s, arm, false, b.ea, e);
    if b.code == BPT_OK && spot.Some? {
      SameCode(s, clean, arm, b);
      LocateCode(s, arm, b.ea, e, Opcode(s, at, e));
      CleanSlice(s, clean, at, |code|);
      if WriteCount(e, at, |code|) == |code| {
        WrittenWasRead(e, at, |code|);
        AddDone(s, at, code, e);
      }
      if !arm { ReadInWord(e, at, 1); }
    }
  }

  lemma AddEntryOverlay(s: Soft, clean: seq<bv8>, arm: bool, b: UpdateBpt, e: Env)
    requires Overlay(s, clean) && |e.junk| == SAVED_SIZE && Free(s, clean, arm, b)
    requires b.soft ==> Untorn(e, Home(arm, b.ea), Width(clean, arm, b.ea))
    ensures var (s1, b1) := AddEntry(s, arm, false, b, e);
            && Overlay(s1, clean) && b1.ea == b.ea && b1.soft == b.soft
            && Extends(s1, s, if b1.code == BPT_OK && b.soft then {Home(arm, b.ea)} else {})
            && Extends(s1, s, if b.soft then {Home(arm, b.ea)} else {})
            && (b.soft ==> Keeps(s1, Home(arm, b.ea), Width(clean, arm, b.ea)))
            && (b1.code == BPT_OK ==> IsGood(clean, arm, b1))
            && (!b.soft ==> b1.orgbytes == b.orgbytes)
  {
    if b.soft { AddSoftOverlay(s, clean, arm, b, e); }
  }

  lemma AddSoftOverlay(s: Soft, clean: seq<bv8>, arm: bool, b: UpdateBpt, e: Env)
    requires Overlay(s, clean) && |e.junk| == SAVED_SIZE && Free(s, clean, arm, b) && b.soft
    requires Untorn(e, Home(arm, b.ea), Width(clean, arm, b.ea))
    ensures var (s1, b1) := AddEntry(s, arm, false, b, e);
            && Overlay(s1, clean) && b1.ea == b.ea && b1.soft
            && Extends(s1, s, if b1.code == BPT_OK then {Home(arm, b.ea)} else {})
            && Extends(s1, s, {Home(arm, b.ea)})
            && Keeps(s1, Home(arm, b.ea), Width(clean, arm, b.ea))
            && (b1.code == BPT_OK ==> IsGood(clean, arm, b1))
  {
    var at, code := Home(arm, b.ea), CodeAt(clean, arm, b.ea);
    AddEntryDone(s, clean, arm, b, e);
    AddKeepsOverlayIff(s, clean, at, code, e);
    assert WriteCount(e, at, |code|) == 0 ==> code[..0] == Slice(s.mem, at, 0);
    AddEntryFails(s, clean, arm, b, e);
  }

  // An entry that does not come out well leaves the table alone.
  lemma AddEntryFails(s: Soft, clean: seq<bv8>, arm: bool, b: UpdateBpt, e: Env)
    requires Overlay(s, clean) && |e.junk| == SAVED_SIZE && Free(s, clean, arm, b) && b.soft
    ensures var (s1, b1) := AddEntry(s, arm, false, b, e);
            b1.code != BPT_OK ==> s1.bpts == s.bpts && s1.removed == s.removed
  {
  }

  // ---------------------------------------------------------------- batches of additions

  // After one entry the rest of the batch is still spread out.
  lemma SpreadRest(s: Soft, clean: seq<bv8>, arm: bool, bs: seq<UpdateBpt>, s1: Soft)
    requires IsImage(clean) && bs != [] && Spread(s, clean, arm, bs)
    requires Extends(s1, s, if bs[0].soft then {Home(arm, bs[0].ea)} else {})
    requires bs[0].soft ==> Keeps(s1, Home(arm, bs[0].ea), Width(clean, arm, bs[0].ea))
    ensures Spread(s1, clean, arm, bs[1..])
  {
    hide CodeAt;
    var rest := bs[1..];
    var first, n0 := Home(arm, bs[0].ea), Width(clean, arm, bs[0].ea);
    forall i | 0 <= i < |rest| ensures Free(s1, clean, arm, rest[i]) {
      assert rest[i] == bs[i + 1] && Free(s, clean, arm, bs[i + 1]);
      var at, n := Home(arm, rest[i].ea), Width(clean, arm, rest[i].ea);
      if rest[i].soft {
        assert bs[0].soft ==> Apart(first, n0, at, n);
        assert Covers(first, n0, first) && Covers(at, n, at);
        forall k | k in Active(s1) && k != at ensures Apart(k, |s1.bpts[k].code|, at, n) {
          if k in Active(s) { assert Apart(k, |s.bpts[k].code|, at, n); }
        }
      }
    }
  }

  // Every entry that came out well is good and was asked for.
  ghost predicate AskedAndGood(clean: seq<bv8>, arm: bool, bs: seq<UpdateBpt>, ds: seq<UpdateBpt>)
    requires IsImage(clean)
  {
    forall d :: d in ds ==>
      exists i :: 0 <= i < |bs| && d.ea == bs[i].ea && d.soft == bs[i].soft
                  && (!d.soft ==> d.orgbytes == bs[i].orgbytes) && IsGood(clean, arm, d)
  }

  lemma AddBatch(s: Soft, clean: seq<bv8>, arm: bool, bs: seq<UpdateBpt>, envs: seq<Env>)
    requires Overlay(s, clean) && Spread(s, clean, arm, bs)
    requires |bs| == |envs| && AllJunk(envs) && AllUntorn(clean, arm, bs, envs)
    ensures var (s1, bs1) := AddEntries(s, arm, false, bs, envs);
            && Overlay(s1, clean) && Extends(s1, s, Addresses(Homed(arm, Added(bs1))))
            && AskedAndGood(clean, arm, bs, Added(bs1))
            && (forall i :: 0 <= i < |bs| && bs[i].soft ==>
                  Keeps(s1, Home(arm, bs[i].ea), Width(clean, arm, bs[i].ea)))
    decreases |bs|
  {
    assert IsImage(s.mem) && IsImage(clean);
    hide *;
    AddEntriesStep(s, arm, bs, envs);
    if bs == [] {
      EmptyBatch(s, clean, arm);
    } else {
      SpreadFirst(s, clean, arm, bs, envs);
      AddEntryOverlay(s, clean, arm, bs[0], envs[0]);
      var (s1, b1) := AddEntry(s, arm, false, bs[0], envs[0]);
      SpreadRest(s, clean, arm, bs, s1);
      AddBatch(s1, clean, arm, bs[1..], envs[1..]);
      var (s2, bs2) := AddEntries(s1, arm, false, bs[1..], envs[1..]);
      AddedAddresses(arm, b1, bs2);
      var first := if b1.code == BPT_OK && b1.soft then {Home(arm, bs[0].ea)} else {};
      ExtendsOn(s, s1, s2, first, Addresses(Homed(arm, Added(bs2))));
      AddedGood(clean, arm, bs, b1, bs2);
      forall i | 0 <= i < |bs| && bs[i].soft ensures Keeps(s2, Home(arm, bs[i].ea), Width(clean, arm, bs[i].ea)) {
        if i > 0 { assert bs[1..][i - 1] == bs[i]; } else { KeepsFirst(s, s1, s2, bs, bs2, clean, arm); }
      }
    }
  }

  lemma AddEntriesStep(s: Soft, arm: bool, bs: seq<UpdateBpt>, envs: seq<Env>)
    requires IsImage(s.mem) && |bs| == |envs| && AllJunk(envs)
    ensures bs == [] ==> AddEntries(s, arm, false, bs, envs) == (s, [])
    ensures bs != [] ==>
              && |envs[0].junk| == SAVED_SIZE && AllJunk(envs[1..])
              && var (s1, b1) := AddEntry(s, arm, false, bs[0], envs[0]);
              var (s2, bs2) := AddEntries(s1, arm, false, bs[1..], envs[1..]);
              AddEntries(s, arm, false, bs, envs) == (s2, [b1] + bs2)
  {
    hide AddEntry;
  }

  lemma SpreadFirst(s: Soft, clean: seq<bv8>, arm: bool, bs: seq<UpdateBpt>, envs: seq<Env>)
    requires IsImage(clean) && bs != [] && |bs| == |envs|
    requires Spread(s, clean, arm, bs) && AllUntorn(clean, arm, bs, envs)
    ensures Free(s, clean, arm, bs[0]) && AllUntorn(clean, arm, bs[1..], envs[1..])
    ensures bs[0].soft ==> Untorn(envs[0], Home(arm, bs[0].ea), Width(clean, arm, bs[0].ea))
  {
    hide Width;
    hide Home;
    hide Untorn;
  }

  lemma EmptyBatch(s: Soft, clean: seq<bv8>, arm: bool)
    requires IsImage(clean)
    ensures Extends(s, s, Addresses(Homed(arm, Added([])))) && AskedAndGood(clean, arm, [], Added([]))
  {
  }

  lemma AddedGood(clean: seq<bv8>, arm: bool, bs: seq<UpdateBpt>, b1: UpdateBpt, bs2: seq<UpdateBpt>)
    requires IsImage(clean) && bs != [] && b1.ea == bs[0].ea && (b1.code == BPT_OK ==> IsGood(clean, arm, b1))
    requires b1.soft == bs[0].soft && (!b1.soft ==> b1.orgbytes == bs[0].orgbytes)
    requires AskedAndGood(clean, arm, bs[1..], Added(bs2))
    ensures AskedAndGood(clean, arm, bs, Added([b1] + bs2))
  {
    hide IsGood;
    forall d | d in Added([b1] + bs2)
      ensures exists i :: 0 <= i < |bs| && d.ea == bs[i].ea && d.soft == bs[i].soft
                          && (!d.soft ==> d.orgbytes == bs[i].orgbytes) && IsGood(clean, arm, d)
    {
      assert ([b1] + bs2)[1..] == bs2;
      if d in Added(bs2) {
        var i :| 0 <= i < |bs[1..]| && d.ea == bs[1..][i].ea && d.soft == bs[1..][i].soft
                 && (!d.soft ==> d.orgbytes == bs[1..][i].orgbytes) && IsGood(clean, arm, d);
        assert bs[i + 1] == bs[1..][i];
      } else {
        assert d == b1 && d.ea == bs[0].ea;
      }
    }
  }

  lemma AddedAddresses(arm: bool, b: UpdateBpt, bs: seq<UpdateBpt>)
    ensures Added([b] + bs) == (if b.code == BPT_OK then [b] else []) + Added(bs)
    ensures Addresses(Homed(arm, Added([b] + bs)))
            == (if b.code == BPT_OK && b.soft then {Home(arm, b.ea)} else {}) + Addresses(Homed(arm, Added(bs)))
  {
    assert ([b] + bs)[1..] == bs;
    hide Home;
    hide Homed;
    hide Addresses;
    if b.code == BPT_OK {
      HomedCons(arm, b, Added(bs));
      var h, hs := b.(ea := Home(arm, b.ea)), Homed(arm, Added(bs));
      assert ([h] + hs)[1..] == hs;
      AddressesCons([h] + hs);
    } else {
      assert [] + Added(bs) == Added(bs);
    }
  }

  lemma AddressesCons(ds: seq<UpdateBpt>)
    requires ds != []
    ensures Addresses(ds) == (if ds[0].soft then {ds[0].ea} else {}) + Addresses(ds[1..])
  {
    var l, r := Addresses(ds), Addresses(ds[1..]);
    forall a | a in l && !(ds[0].soft && a == ds[0].ea) ensures a in r {
      var i :| 0 <= i < |ds| && ds[i].soft && ds[i].ea == a;
      assert ds[1..][i - 1] == ds[i];
    }
    forall a | a in r ensures a in l {
      var i :| 0 <= i < |ds[1..]| && ds[1..][i].soft && ds[1..][i].ea == a;
      assert ds[i + 1] == ds[1..][i];
    }
  }

  lemma KeepsFirst(s: Soft, s1: Soft, s2: Soft, bs: seq<UpdateBpt>, bs2: seq<UpdateBpt>, clean: seq<bv8>, arm: bool)
    requires IsImage(clean) && bs != [] && bs[0].soft && Spread(s, clean, arm, bs)
    requires Extends(s2, s1, Addresses(Homed(arm, Added(bs2)))) && AskedAndGood(clean, arm, bs[1..], Added(bs2))
    requires Keeps(s1, Home(arm, bs[0].ea), Width(clean, arm, bs[0].ea))
    ensures Keeps(s2, Home(arm, bs[0].ea), Width(clean, arm, bs[0].ea))
  {
    hide CodeAt;
    hide IsGood;
    var ds, at := Added(bs2), Home(arm, bs[0].ea);
    forall j | 0 <= j < |ds| && ds[j].soft ensures Homed(arm, ds)[j].ea != at {
      assert ds[j] in ds;
      var i :| 0 <= i < |bs[1..]| && ds[j].ea == bs[1..][i].ea && ds[j].soft == bs[1..][i].soft;
      assert bs[1..][i] == bs[i + 1];
      var at', n, n' := Home(arm, bs[i + 1].ea), Width(clean, arm, bs[0].ea), Width(clean, arm, bs[i + 1].ea);
      assert Apart(at, n, at', n');
      assert Covers(at, n, at) && Covers(at', n', at');
    }
  }

  // ---------------------------------------------------------------- batches of deletions

  // Can the original bytes of every entry be written back?
  ghost predicate Writable(ds: seq<UpdateBpt>, envs: seq<Env>)
    requires |ds| == |envs| && AllDeletable(ds)
  {
    forall i :: 0 <= i < |ds| ==> WriteCount(envs[i], ds[i].ea, |ds[i].orgbytes|) == |ds[i].orgbytes|
  }

  // Entries fit for deletion: the clean bytes of breakpoints clear of the others, and none
  // for debug registers.
  ghost predicate Recorded(s: Soft, clean: seq<bv8>, ds: seq<UpdateBpt>)
    requires IsImage(clean)
  {
    forall i :: 0 <= i < |ds| ==> Fit(s, clean, ds[i])
  }

  ghost predicate Fit(s: Soft, clean: seq<bv8>, d: UpdateBpt)
    requires IsImage(clean)
  {
    var n := |d.orgbytes|;
    if d.soft then 0 < n <= 4 && d.orgbytes == Slice(clean, d.ea, n) && Keeps(s, d.ea, n) && Clear(s, d.ea, n)
    else n == 0
  }

  lemma RecordedRest(s: Soft, s1: Soft, clean: seq<bv8>, ds: seq<UpdateBpt>)
    requires IsImage(clean) && ds != [] && Recorded(s, clean, ds)
    requires s1.bpts == s.bpts && Active(s1) <= Active(s)
    ensures Recorded(s1, clean, ds[1..])
  {
    forall i | 0 <= i < |ds[1..]| ensures Fit(s1, clean, ds[1..][i]) {
      assert Fit(s, clean, ds[i + 1]);
    }
  }

  lemma DelBatch(s: Soft, clean: seq<bv8>, arm: bool, ds: seq<UpdateBpt>, envs: seq<Env>)
    requires Overlay(s, clean) && Recorded(s, clean, ds) && |ds| == |envs|
    requires AllDeletable(ds) && Writable(ds, envs)
    ensures var s2 := DelEntries(s, arm, ds, envs).0;
            Overlay(s2, clean) && s2.bpts == s.bpts && Active(s2) == Active(s) - Addresses(ds)
    decreases |ds|
  {
    assert IsImage(s.mem) && IsImage(clean);
    hide Apart;
    hide Overlay;
    if ds == [] {
      assert Addresses(ds) == {};
    } else {
      assert Fit(s, clean, ds[0]);
      DelFitEntry(s, clean, arm, ds[0], envs[0]);
      var s1 := DelEntry(s, arm, ds[0], envs[0]).0;
      RecordedRest(s, s1, clean, ds);
      DelBatch(s1, clean, arm, ds[1..], envs[1..]);
      AddressesCons(ds);
    }
  }

  lemma DelFitEntry(s: Soft, clean: seq<bv8>, arm: bool, d: UpdateBpt, e: Env)
    requires Overlay(s, clean) && Fit(s, clean, d) && WriteCount(e, d.ea, |d.orgbytes|) == |d.orgbytes|
    ensures Deletable(d)
    ensures var s1 := DelEntry(s, arm, d, e).0;
            Overlay(s1, clean) && s1.bpts == s.bpts && Active(s1) == Active(s) - (if d.soft then {d.ea} else {})
  {
    if d.soft {
      assert d.orgbytes[..|d.orgbytes|] == d.orgbytes;
      DelOverlay(s, clean, d.ea, d.orgbytes, e);
    }
  }

  // ---------------------------------------------------------------- writes in sequence

  datatype Put = Put(at: word, bytes: seq<bv8>)

  predicate AllSmall(ps: seq<Put>) {
    forall i :: 0 <= i < |ps| ==> |ps[i].bytes| <= 4
  }

  function PutAll(mem: seq<bv8>, ps: seq<Put>): (r: seq<bv8>)
    requires IsImage(mem) && AllSmall(ps)
    ensures IsImage(r)
    decreases |ps|
  {
    if ps == [] then mem else PutAll(Written(mem, ps[0].at, ps[0].bytes), ps[1..])
  }

  // Do no two of the writes touch the same byte?  ws are bounds of their lengths.
  ghost predicate PutsApart(ps: seq<Put>, ws: seq<nat>) {
    && |ws| == |ps|
    && (forall i :: 0 <= i < |ps| ==> |ps[i].bytes| <= ws[i])
    && (forall i, j :: 0 <= i < j < |ps| ==> Apart(ps[i].at, ws[i], ps[j].at, ws[j]))
  }

  lemma PutAllOther(mem: seq<bv8>, ps: seq<Put>, a: word)
    requires IsImage(mem) && AllSmall(ps)
    requires forall i :: 0 <= i < |ps| ==> !Covers(ps[i].at, |ps[i].bytes|, a)
    ensures PutAll(mem, ps)[a] == mem[a]
    decreases |ps|
  {
    if ps != [] {
      assert !Covers(ps[0].at, |ps[0].bytes|, a);
      forall i | 0 <= i < |ps[1..]| ensures !Covers(ps[1..][i].at, |ps[1..][i].bytes|, a) {
        assert ps[1..][i] == ps[i + 1];
      }
      PutAllOther(Written(mem, ps[0].at, ps[0].bytes), ps[1..], a);
    }
  }

  // In the range of write i only write i has an effect.
  lemma PutAllAt(mem: seq<bv8>, ps: seq<Put>, ws: seq<nat>, i: nat, a: word)
    requires IsImage(mem) && AllSmall(ps) && PutsApart(ps, ws) && i < |ps| && Covers(ps[i].at, ws[i], a)
    ensures PutAll(mem, ps)[a]
            == if Covers(ps[i].at, |ps[i].bytes|, a) then ps[i].bytes[Off(ps[i].at, a)] else mem[a]
    decreases |ps|
  {
    var rest := ps[1..];
    var mem1 := Written(mem, ps[0].at, ps[0].bytes);
    if i == 0 {
      forall j | 0 <= j < |rest| ensures !Covers(rest[j].at, |rest[j].bytes|, a) {
        assert rest[j] == ps[j + 1] && Apart(ps[0].at, ws[0], ps[j + 1].at, ws[j + 1]);
      }
      PutAllOther(mem1, rest, a);
    } else {
      assert Apart(ps[0].at, ws[0], ps[i].at, ws[i]);
      assert rest[i - 1] == ps[i] && ws[1..][i - 1] == ws[i];
      PutsApartRest(ps, ws);
      PutAllAt(mem1, rest, ws[1..], i - 1, a);
    }
  }

  lemma PutsApartRest(ps: seq<Put>, ws: seq<nat>)
    requires PutsApart(ps, ws) && ps != []
    ensures PutsApart(ps[1..], ws[1..])
  {
    hide Apart;
    forall i, j | 0 <= i < j < |ps[1..]| ensures Apart(ps[1..][i].at, ws[1..][i], ps[1..][j].at, ws[1..][j]) {
      assert Apart(ps[i + 1].at, ws[i + 1], ps[j + 1].at, ws[j + 1]);
    }
  }

  // Are all bytes of p that q does not write back the bytes of mem?
  ghost predicate Harmless(mem: seq<bv8>, p: Put, q: Put)
    requires IsImage(mem) && |p.bytes| <= 4
  {
    forall k :: |q.bytes| <= k < |p.bytes| ==> p.bytes[k] == mem[At(p.at, k)]
  }

  /** Writes apart from each other, followed by writing back the first bytes of each range,
      give the memory back exactly when what is not written back is harmless. */
  lemma UndoneIff(mem: seq<bv8>, ps: seq<Put>, qs: seq<Put>, ws: seq<nat>)
    requires IsImage(mem) && AllSmall(ps) && AllSmall(qs) && PutsApart(ps, ws) && PutsApart(qs, ws)
    requires forall i :: 0 <= i < |ps| ==> qs[i].at == ps[i].at && qs[i].bytes == Slice(mem, qs[i].at, |qs[i].bytes|)
    ensures PutAll(PutAll(mem, ps), qs) == mem <==> forall i :: 0 <= i < |ps| ==> Harmless(mem, ps[i], qs[i])
  {
    hide Apart;
    var mid := PutAll(mem, ps);
    var r := PutAll(mid, qs);
    if r == mem {
      forall i | 0 <= i < |ps| ensures Harmless(mem, ps[i], qs[i]) {
        forall k | |qs[i].bytes| <= k < |ps[i].bytes| ensures ps[i].bytes[k] == mem[At(ps[i].at, k)] {
          UndoneAt(mem, ps, qs, ws, i, At(ps[i].at, k));
          assert Off(ps[i].at, At(ps[i].at, k)) == k;
        }
      }
    }
    if forall i :: 0 <= i < |ps| ==> Harmless(mem, ps[i], qs[i]) {
      forall a: word | a < TWO_32 ensures r[a] == mem[a] {
        if i :| 0 <= i < |ps| && Covers(ps[i].at, ws[i], a) {
          UndoneAt(mem, ps, qs, ws, i, a);
          assert Harmless(mem, ps[i], qs[i]) && At(ps[i].at, Off(ps[i].at, a)) == a;
        } else {
          PutAllOther(mem, ps, a);
          PutAllOther(mid, qs, a);
        }
      }
    }
  }

  lemma UndoneAt(mem: seq<bv8>, ps: seq<Put>, qs: seq<Put>, ws: seq<nat>, i: nat, a: word)
    requires IsImage(mem) && AllSmall(ps) && AllSmall(qs) && PutsApart(ps, ws) && PutsApart(qs, ws)
    requires i < |ps| && qs[i].at == ps[i].at && qs[i].bytes == Slice(mem, qs[i].at, |qs[i].bytes|)
    requires Covers(ps[i].at, ws[i], a)
    ensures var p, k := ps[i], Off(ps[i].at, a);
            PutAll(PutAll(mem, ps), qs)[a] == if |qs[i].bytes| <= k < |p.bytes| then p.bytes[k] else mem[a]
  {
    hide Apart;
    PutAllAt(mem, ps, ws, i, a);
    PutAllAt(PutAll(mem, ps), qs, ws, i, a);
    assert At(ps[i].at, Off(ps[i].at, a)) == a;
  }

  // ---------------------------------------------------------------- what a batch writes

  // Can what read_bpt_orgbytes has to read for an entry at ea be read?
  ghost predicate Readable(image: seq<bv8>, arm: bool, ea: word, e: Env)
    requires IsImage(image)
  {
    var at, n := Home(arm, ea), Width(image, arm, ea);
    if IsThumb(arm, ea) then ReadCount(e, at, 2) > 0 && (n == 4 ==> ReadCount(e, At(at, 2), 2) > 0)
    else ReadCount(e, at, n) > 0
  }

  // How many bytes of its code the addition of b writes.
  ghost function Laid(image: seq<bv8>, arm: bool, b: UpdateBpt, e: Env): (w: nat)
    requires IsImage(image)
    ensures w <= Width(image, arm, b.ea)
  {
    if b.code == BPT_OK && b.soft && Readable(image, arm, b.ea, e) then
      WriteCount(e, Home(arm, b.ea), Width(image, arm, b.ea))
    else 0
  }

  // Does the addition of b come out well?
  ghost predicate ComesOut(image: seq<bv8>, arm: bool, b: UpdateBpt, e: Env)
    requires IsImage(image)
  {
    b.code == BPT_OK &&
    if b.soft then Readable(image, arm, b.ea, e) && (Laid(image, arm, b, e) == Width(image, arm, b.ea) || (!arm
        && e.hw))
    else !arm && e.hw
  }

  // How many bytes its deletion writes back.
  ghost function WrittenBack(image: seq<bv8>, arm: bool, b: UpdateBpt, e: Env, e': Env): (w: nat)
    requires IsImage(image)
    ensures w <= Width(image, arm, b.ea)
  {
    if b.soft && ComesOut(image, arm, b, e) then WriteCount(e', Home(arm, b.ea), Width(image, arm, b.ea)) else 0
  }

  ghost function AddPut(image: seq<bv8>, arm: bool, b: UpdateBpt, e: Env): (p: Put)
    requires IsImage(image)
    ensures |p.bytes| <= Width(image, arm, b.ea)
  {
    Put(Home(arm, b.ea), CodeAt(image, arm, b.ea)[..Laid(image, arm, b, e)])
  }

  ghost function DelPut(image: seq<bv8>, arm: bool, b: UpdateBpt, e: Env, e': Env): (p: Put)
    requires IsImage(image)
    ensures |p.bytes| <= Width(image, arm, b.ea)
  {
    Put(Home(arm, b.ea), Slice(image, Home(arm, b.ea), WrittenBack(image, arm, b, e, e')))
  }

  lemma LocateSome(s: Soft, arm: bool, ea: word, e: Env)
    requires IsImage(s.mem)
    ensures Locate(s, arm, false, ea, e).Some? <==> Readable(s.mem, arm, ea, e)
  {
    if IsThumb(arm, ea) && ReadCount(e, Home(arm, ea), 2) > 0 {
      hide Slice;
      hide ReadCount;
      hide OrgBytes;
      ReadHalf(s, Home(arm, ea), e);
    }
  }

  // How the entry b is reported after its addition.
  ghost predicate Reported(image: seq<bv8>, arm: bool, b: UpdateBpt, e: Env, b1: UpdateBpt)
    requires IsImage(image)
  {
    && b1.ea == b.ea && b1.soft == b.soft
    && (b1.code == BPT_OK <==> ComesOut(image, arm, b, e))
    && (b1.code == BPT_OK && b.soft ==> b1.orgbytes == Slice(image, Home(arm, b.ea), Width(image, arm, b.ea)))
    && (!b.soft ==> b1.orgbytes == b.orgbytes)
  }

  lemma AddEntryMem(s: Soft, arm: bool, b: UpdateBpt, e: Env)
    requires IsImage(s.mem) && |e.junk| == SAVED_SIZE
    ensures var (s1, b1) := AddEntry(s, arm, false, b, e);
            var p := AddPut(s.mem, arm, b, e);
            s1.mem == Written(s.mem, p.at, p.bytes) && Reported(s.mem, arm, b, e, b1)
  {
    assert Written(s.mem, Home(arm, b.ea), []) == s.mem;
    if b.code == BPT_OK && b.soft {
      LocateSome(s, arm, b.ea, e);
      if Locate(s, arm, false, b.ea, e).Some? { AddLocated(s, arm, b, e); }
    }
  }

  lemma AddLocated(s: Soft, arm: bool, b: UpdateBpt, e: Env)
    requires IsImage(s.mem) && |e.junk| == SAVED_SIZE && b.code == BPT_OK && b.soft
    requires Locate(s, arm, false, b.ea, e).Some? && Readable(s.mem, arm, b.ea, e)
    ensures var (s1, b1) := AddEntry(s, arm, false, b, e);
            var p := AddPut(s.mem, arm, b, e);
            s1.mem == Written(s.mem, p.at, p.bytes) && Reported(s.mem, arm, b, e, b1)
  {
    hide Slice;
    hide Locate;
    hide CodeAt;
    hide Readable;
    hide ReadCount;
    hide WriteCount;
    hide BptCode;
    var at, code := Home(arm, b.ea), CodeAt(s.mem, arm, b.ea);
    LocateCode(s, arm, b.ea, e, Opcode(s, at, e));
    if WriteCount(e, at, |code|) == |code| { WrittenWasRead(e, at, |code|); }
    if !arm { OneByteRead(s, b.ea, e); }
  }

  lemma OneByteRead(s: Soft, ea: word, e: Env)
    requires IsImage(s.mem)
    ensures CodeAt(s.mem, false, ea) == X86_BPT_CODE && (ReadCount(e, ea, 1) > 0 ==> ReadCount(e, ea, 1) == 1)
  {
    if ReadCount(e, ea, 1) > 0 { ReadInWord(e, ea, 1); }
  }

  // ---------------------------------------------------------------- there and back

  // Are the places of the software breakpoints apart from each other?
  ghost predicate PlacesApart(image: seq<bv8>, arm: bool, bs: seq<UpdateBpt>)
    requires IsImage(image)
  {
    forall i, j :: 0 <= i < j < |bs| && bs[i].soft && bs[j].soft ==>
      Apart(Home(arm, bs[i].ea), Width(image, arm, bs[i].ea), Home(arm, bs[j].ea), Width(image, arm, bs[j].ea))
  }

  // The room an entry needs in memory.
  function Room(image: seq<bv8>, arm: bool, b: UpdateBpt): nat
    requires IsImage(image)
  {
    if b.soft then Width(image, arm, b.ea) else 0
  }

  ghost function AddPuts(image: seq<bv8>, arm: bool, bs: seq<UpdateBpt>, envs: seq<Env>): (ps: seq<Put>)
    requires IsImage(image) && |bs| == |envs|
    ensures |ps| == |bs| && AllSmall(ps)
  {
    seq(|bs|, i requires 0 <= i < |bs| => AddPut(image, arm, bs[i], envs[i]))
  }

  ghost function DelPuts(image: seq<bv8>, arm: bool, bs: seq<UpdateBpt>, envs: seq<Env>,
      envs': seq<Env>): (ps: seq<Put>)
    requires IsImage(image) && |bs| == |envs| == |envs'|
    ensures |ps| == |bs| && AllSmall(ps)
  {
    seq(|bs|, i requires 0 <= i < |bs| => DelPut(image, arm, bs[i], envs[i], envs'[i]))
  }

  // A write elsewhere does not change what an entry comes to.
  lemma SamePlace(image: seq<bv8>, image1: seq<bv8>, arm: bool, b: UpdateBpt, e: Env)
    requires IsImage(image) && IsImage(image1)
    requires Slice(image1, Home(arm, b.ea), Width(image, arm, b.ea))
              == Slice(image, Home(arm, b.ea), Width(image, arm, b.ea))
    ensures CodeAt(image1, arm, b.ea) == CodeAt(image, arm, b.ea)
              && AddPut(image1, arm, b, e) == AddPut(image, arm, b, e)
    ensures forall b1 :: Reported(image1, arm, b, e, b1) == Reported(image, arm, b, e, b1)
  {
    if IsThumb(arm, b.ea) {
      var at, n := Home(arm, b.ea), Width(image, arm, b.ea);
      assert Slice(image1, at, 2) == Slice(image1, at, n)[..2];
      assert Slice(image, at, 2) == Slice(image, at, n)[..2];
    }
    assert CodeAt(image1, arm, b.ea) == CodeAt(image, arm, b.ea);
  }

  // Entries for debug registers are the same in any image.
  lemma NoPlace(image: seq<bv8>, image1: seq<bv8>, arm: bool, b: UpdateBpt, e: Env)
    requires IsImage(image) && IsImage(image1) && !b.soft
    ensures AddPut(image1, arm, b, e) == AddPut(image, arm, b, e) == Put(Home(arm, b.ea), [])
    ensures forall b1 :: Reported(image1, arm, b, e, b1) == Reported(image, arm, b, e, b1)
  {
  }

  lemma SameEntry(image: seq<bv8>, arm: bool, p: Put, b0: UpdateBpt, b: UpdateBpt, e: Env)
    requires IsImage(image) && p.at == Home(arm, b0.ea) && |p.bytes| <= Room(image, arm, b0)
    requires b0.soft && b.soft ==>
               Apart(Home(arm, b0.ea), Width(image, arm, b0.ea), Home(arm, b.ea), Width(image, arm, b.ea))
    ensures var image1 := Written(image, p.at, p.bytes);
            && Room(image1, arm, b) == Room(image, arm, b) && AddPut(image1, arm, b, e) == AddPut(image, arm, b, e)
            && (b.soft ==> Width(image1, arm, b.ea) == Width(image, arm, b.ea))
            && forall b1 :: Reported(image1, arm, b, e, b1) == Reported(image, arm, b, e, b1)
  {
    hide AddPut;
    hide Reported;
    var image1 := Written(image, p.at, p.bytes);
    if b.soft {
      var at, n := Home(arm, b.ea), Width(image, arm, b.ea);
      assert Apart(p.at, |p.bytes|, at, n) by {
        if b0.soft { ApartLess(p.at, |p.bytes|, Width(image, arm, b0.ea), at, n); }
      }
      WriteFrame(image, p.at, p.bytes, at, n);
      SamePlace(image, image1, arm, b, e);
    } else {
      NoPlace(image, image1, arm, b, e);
    }
  }

  lemma ApartLess(a: word, w: nat, n: nat, b: word, m: nat)
    requires Apart(a, n, b, m) && w <= n
    ensures Apart(a, w, b, m)
  {
    forall c: word ensures !(Covers(a, w, c) && Covers(b, m, c)) { assert Covers(a, w, c) ==> Covers(a, n, c); }
  }

  // The additions of a batch write what each would write on its own.
  lemma AddEntriesMem(s: Soft, arm: bool, bs: seq<UpdateBpt>, envs: seq<Env>)
    requires IsImage(s.mem) && |bs| == |envs| && AllJunk(envs) && PlacesApart(s.mem, arm, bs)
    ensures var (s1, bs1) := AddEntries(s, arm, false, bs, envs);
            && s1.mem == PutAll(s.mem, AddPuts(s.mem, arm, bs, envs))
            && forall i :: 0 <= i < |bs| ==> Reported(s.mem, arm, bs[i], envs[i], bs1[i])
    decreases |bs|
  {
    hide AddEntry;
    hide AddPut;
    hide Reported;
    hide Width;
    hide Apart;
    if bs != [] {
      var (s1, b1) := AddEntry(s, arm, false, bs[0], envs[0]);
      var p := AddPut(s.mem, arm, bs[0], envs[0]);
      AddEntryMem(s, arm, bs[0], envs[0]);
      AddPutRoom(s.mem, arm, bs[0], envs[0]);
      forall i | 0 < i < |bs|
        ensures AddPut(s1.mem, arm, bs[i], envs[i]) == AddPut(s.mem, arm, bs[i], envs[i])
        ensures bs[i].soft ==> Width(s1.mem, arm, bs[i].ea) == Width(s.mem, arm, bs[i].ea)
        ensures forall b :: Reported(s1.mem, arm, bs[i], envs[i], b) == Reported(s.mem, arm, bs[i], envs[i], b)
      {
        SameEntry(s.mem, arm, p, bs[0], bs[i], envs[i]);
      }
      assert PlacesApart(s1.mem, arm, bs[1..]);
      AddEntriesMem(s1, arm, bs[1..], envs[1..]);
      var ps := AddPuts(s.mem, arm, bs, envs);
      assert ps[0] == p && ps[1..] == AddPuts(s1.mem, arm, bs[1..], envs[1..]);
    }
  }

  lemma AddPutRoom(image: seq<bv8>, arm: bool, b: UpdateBpt, e: Env)
    requires IsImage(image)
    ensures AddPut(image, arm, b, e).at == Home(arm, b.ea) && |AddPut(image, arm, b, e).bytes| <= Room(image, arm, b)
  {
  }

  // The environments of the entries that are deleted again.
  function Kept(bs: seq<UpdateBpt>, envs: seq<Env>): (r: seq<Env>)
    requires |bs| == |envs|
    ensures |r| == |Added(bs)|
    decreases |bs|
  {
    if bs == [] then [] else (if bs[0].code == BPT_OK then [envs[0]] else []) + Kept(bs[1..], envs[1..])
  }

  // Entries that can be deleted with what they report.
  predicate Returnable(b: UpdateBpt) {
    b.code == BPT_OK ==> if b.soft then 0 < |b.orgbytes| <= 4 else b.orgbytes == []
  }

  predicate AllReturnable(bs: seq<UpdateBpt>) {
    forall i :: 0 <= i < |bs| ==> Returnable(bs[i])
  }

  // What the deletion of an entry writes, if it is in use.
  ghost function BackPut(arm: bool, b: UpdateBpt, e: Env): (p: Put)
    requires Returnable(b)
    ensures |p.bytes| <= 4
  {
    Put(Home(arm, b.ea), if b.code == BPT_OK then b.orgbytes[..WriteCount(e, Home(arm, b.ea), |b.orgbytes|)] else [])
  }

  ghost function BackPuts(arm: bool, bs: seq<UpdateBpt>, envs: seq<Env>): (ps: seq<Put>)
    requires |bs| == |envs| && AllReturnable(bs)
    ensures |ps| == |bs| && AllSmall(ps)
  {
    seq(|bs|, i requires 0 <= i < |bs| => BackPut(arm, bs[i], envs[i]))
  }

  lemma DelEntryMem(s: Soft, arm: bool, b: UpdateBpt, e: Env)
    requires IsImage(s.mem) && b.code == BPT_OK && Returnable(b)
    ensures var d, p := b.(ea := Home(arm, b.ea)), BackPut(arm, b, e);
            Deletable(d) && DelEntry(s, arm, d, e).0.mem == Written(s.mem, p.at, p.bytes)
  {
    assert Written(s.mem, Home(arm, b.ea), []) == s.mem;
    assert b.orgbytes[..|b.orgbytes|] == b.orgbytes;
  }

  lemma DelEntriesMem(s: Soft, arm: bool, bs: seq<UpdateBpt>, envs: seq<Env>)
    requires IsImage(s.mem) && |bs| == |envs| && AllReturnable(bs)
    ensures var ds := Homed(arm, Added(bs));
            && AllDeletable(ds)
            && DelEntries(s, arm, ds, Kept(bs, envs)).0.mem == PutAll(s.mem, BackPuts(arm, bs, envs))
    decreases |bs|
  {
    hide *;
    AddedKept(arm, bs, envs);
    if bs == [] {
      DelNone(s, arm);
      PutNone(s.mem, BackPuts(arm, bs, envs));
    } else {
      BackPutsCons(s.mem, arm, bs, envs);
      if bs[0].code == BPT_OK {
        DelEntryMem(s, arm, bs[0], envs[0]);
        var d := bs[0].(ea := Home(arm, bs[0].ea));
        DelEntriesMem(DelEntry(s, arm, d, envs[0]).0, arm, bs[1..], envs[1..]);
        DelCons(s, arm, d, Homed(arm, Added(bs[1..])), envs[0], Kept(bs[1..], envs[1..]));
      } else {
        DelEntriesMem(s, arm, bs[1..], envs[1..]);
        NothingBack(s.mem, arm, bs[0], envs[0]);
      }
    }
  }

  lemma AddedKept(arm: bool, bs: seq<UpdateBpt>, envs: seq<Env>)
    requires |bs| == |envs|
    ensures bs == [] ==> Homed(arm, Added(bs)) == [] && Kept(bs, envs) == []
    ensures bs != [] ==>
              var hs, es := Homed(arm, Added(bs[1..])), Kept(bs[1..], envs[1..]);
              if bs[0].code == BPT_OK then
                Homed(arm, Added(bs)) == [bs[0].(ea := Home(arm, bs[0].ea))] + hs && Kept(bs, envs) == [envs[0]] + es
              else Homed(arm, Added(bs)) == hs && Kept(bs, envs) == es
  {
    hide Home;
    hide Homed;
    if bs == [] {
      assert Homed(arm, []) == [];
    } else if bs[0].code == BPT_OK {
      HomedCons(arm, bs[0], Added(bs[1..]));
    } else {
      assert [] + Added(bs[1..]) == Added(bs[1..]) && [] + Kept(bs[1..], envs[1..]) == Kept(bs[1..], envs[1..]);
    }
  }

  lemma HomedCons(arm: bool, b: UpdateBpt, bs: seq<UpdateBpt>)
    ensures Homed(arm, [b] + bs) == [b.(ea := Home(arm, b.ea))] + Homed(arm, bs)
  {
    hide Home;
  }

  lemma PutNone(mem: seq<bv8>, ps: seq<Put>)
    requires IsImage(mem) && ps == []
    ensures AllSmall(ps) && PutAll(mem, ps) == mem
  {
  }

  lemma DelNone(s: Soft, arm: bool)
    requires IsImage(s.mem)
    ensures AllDeletable([]) && DelEntries(s, arm, [], []).0 == s
  {
  }

  lemma DelCons(s: Soft, arm: bool, d: UpdateBpt, ds: seq<UpdateBpt>, e: Env, es: seq<Env>)
    requires IsImage(s.mem) && Deletable(d) && AllDeletable(ds) && |ds| == |es|
    ensures AllDeletable([d] + ds)
    ensures DelEntries(s, arm, [d] + ds, [e] + es).0 == DelEntries(DelEntry(s, arm, d, e).0, arm, ds, es).0
  {
    hide DelEntry;
    hide Deletable;
    assert ([d] + ds)[1..] == ds && ([e] + es)[1..] == es;
  }

  lemma BackPutsCons(mem: seq<bv8>, arm: bool, bs: seq<UpdateBpt>, envs: seq<Env>)
    requires IsImage(mem) && bs != [] && |bs| == |envs| && AllReturnable(bs)
    ensures Returnable(bs[0]) && AllReturnable(bs[1..])
    ensures var p := BackPut(arm, bs[0], envs[0]);
            PutAll(mem, BackPuts(arm, bs, envs))
                == PutAll(Written(mem, p.at, p.bytes), BackPuts(arm, bs[1..], envs[1..]))
  {
    hide BackPut;
    hide Returnable;
    assert BackPuts(arm, bs, envs)[1..] == BackPuts(arm, bs[1..], envs[1..]);
  }

  lemma NothingBack(mem: seq<bv8>, arm: bool, b: UpdateBpt, e: Env)
    requires IsImage(mem) && b.code != BPT_OK
    ensures Written(mem, BackPut(arm, b, e).at, BackPut(arm, b, e).bytes) == mem
  {
  }

  // Is every byte of code that is written for b and not written back the one it replaces?
  ghost predicate Back(image: seq<bv8>, arm: bool, b: UpdateBpt, e: Env, e': Env)
    requires IsImage(image)
  {
    forall k :: WrittenBack(image, arm, b, e, e') <= k < Laid(image, arm, b, e) ==>
      CodeAt(image, arm, b.ea)[k] == image[At(Home(arm, b.ea), k)]
  }

  ghost predicate NoBytes(bs: seq<UpdateBpt>) {
    forall i :: 0 <= i < |bs| && !bs[i].soft ==> bs[i].orgbytes == []
  }

  /** A batch of additions of any kind, whatever the memory and the breakpoints there are, and
      the deletion of the entries that came out well, at the even address on ARM and with
      the bytes reported for them: the memory is what it was exactly when, for every entry,
      each byte of code that was written is written back or equal to the byte it replaced.
      That covers additions and deletions whose write stops early. */
  lemma BatchUndoIff(s: Soft, arm: bool, bs: seq<UpdateBpt>, envs: seq<Env>, envs': seq<Env>)
    requires IsImage(s.mem) && |bs| == |envs| == |envs'| && AllJunk(envs)
    requires PlacesApart(s.mem, arm, bs) && NoBytes(bs)
    ensures var (s1, bs1) := AddEntries(s, arm, false, bs, envs);
            var ds := Homed(arm, Added(bs1));
            && AllDeletable(ds)
            && (DelEntries(s1, arm, ds, Kept(bs1, envs')).0.mem == s.mem
                <==> forall i :: 0 <= i < |bs| ==> Back(s.mem, arm, bs[i], envs[i], envs'[i]))
  {
    hide Apart;
    hide AddPut;
    hide DelPut;
    hide BackPut;
    hide Back;
    hide Harmless;
    hide Room;
    hide Slice;
    hide DelEntries;
    hide AddEntries;
    hide PutAll;
    var (s1, bs1) := AddEntries(s, arm, false, bs, envs);
    AddEntriesMem(s, arm, bs, envs);
    var ps, qs := AddPuts(s.mem, arm, bs, envs), DelPuts(s.mem, arm, bs, envs, envs');
    ReportedAllBack(s.mem, arm, bs, envs, envs', bs1);
    DelEntriesMem(s1, arm, bs1, envs');
    var ws := seq(|bs|, i requires 0 <= i < |bs| => Room(s.mem, arm, bs[i]));
    PutsInRooms(s.mem, arm, bs, envs, envs', ws);
    forall i | 0 <= i < |bs|
      ensures ps[i].at == qs[i].at && qs[i].bytes == Slice(s.mem, qs[i].at, |qs[i].bytes|)
      ensures Back(s.mem, arm, bs[i], envs[i], envs'[i]) <==> Harmless(s.mem, ps[i], qs[i])
    {
      BackHarmless(s.mem, arm, bs[i], envs[i], envs'[i]);
    }
    UndoneIff(s.mem, ps, qs, ws);
  }

  lemma ReportedAllBack(image: seq<bv8>, arm: bool, bs: seq<UpdateBpt>, envs: seq<Env>, envs': seq<Env>,
      bs1: seq<UpdateBpt>)
    requires IsImage(image) && |bs| == |envs| == |envs'| == |bs1| && NoBytes(bs)
    requires forall i :: 0 <= i < |bs| ==> Reported(image, arm, bs[i], envs[i], bs1[i])
    ensures AllReturnable(bs1)
    ensures BackPuts(arm, bs1, envs') == DelPuts(image, arm, bs, envs, envs')
  {
    hide BackPut;
    hide DelPut;
    hide Returnable;
    forall i | 0 <= i < |bs|
      ensures Returnable(bs1[i]) && BackPut(arm, bs1[i], envs'[i]) == DelPut(image, arm, bs[i], envs[i], envs'[i])
    {
      ReportedBack(image, arm, bs[i], envs[i], envs'[i], bs1[i]);
    }
  }

  lemma ReportedBack(image: seq<bv8>, arm: bool, b: UpdateBpt, e: Env, e': Env, b1: UpdateBpt)
    requires IsImage(image) && Reported(image, arm, b, e, b1) && (!b.soft ==> b.orgbytes == [])
    ensures Returnable(b1) && BackPut(arm, b1, e') == DelPut(image, arm, b, e, e')
  {
    hide ComesOut;
    hide CodeAt;
    if b1.code == BPT_OK && b.soft {
      var at, n := Home(arm, b.ea), Width(image, arm, b.ea);
      assert b1.orgbytes[..WriteCount(e', at, n)] == Slice(image, at, WriteCount(e', at, n));
    }
  }

  lemma BackHarmless(image: seq<bv8>, arm: bool, b: UpdateBpt, e: Env, e': Env)
    requires IsImage(image)
    ensures var p, q := AddPut(image, arm, b, e), DelPut(image, arm, b, e, e');
            && p.at == q.at && q.bytes == Slice(image, q.at, |q.bytes|)
            && (Back(image, arm, b, e, e') <==> Harmless(image, p, q))
  {
    hide Laid;
    hide WrittenBack;
  }

  lemma PutsInRooms(image: seq<bv8>, arm: bool, bs: seq<UpdateBpt>, envs: seq<Env>, envs': seq<Env>, ws: seq<nat>)
    requires IsImage(image) && |bs| == |envs| == |envs'| == |ws| && PlacesApart(image, arm, bs)
    requires forall i :: 0 <= i < |bs| ==> ws[i] == Room(image, arm, bs[i])
    ensures PutsApart(AddPuts(image, arm, bs, envs), ws) && PutsApart(DelPuts(image, arm, bs, envs, envs'), ws)
  {
    hide CodeAt;
    var ps, qs := AddPuts(image, arm, bs, envs), DelPuts(image, arm, bs, envs, envs');
    forall i, j | 0 <= i < j < |bs| ensures Apart(ps[i].at, ws[i], ps[j].at, ws[j]) {
      if bs[i].soft && bs[j].soft {
        assert Apart(Home(arm, bs[i].ea), Width(image, arm, bs[i].ea), Home(arm, bs[j].ea), Width(image, arm,
            bs[j].ea));
      }
    }
  }

  /** In particular the memory comes back when no write is torn and every deletion is complete. */
  lemma BatchUndo(s: Soft, arm: bool, bs: seq<UpdateBpt>, envs: seq<Env>, envs': seq<Env>)
    requires IsImage(s.mem) && |bs| == |envs| == |envs'| && AllJunk(envs)
    requires PlacesApart(s.mem, arm, bs) && NoBytes(bs) && AllUntorn(s.mem, arm, bs, envs)
    requires forall i :: 0 <= i < |bs| && bs[i].soft ==>
               WriteCount(envs'[i], Home(arm, bs[i].ea), Width(s.mem, arm, bs[i].ea)) == Width(s.mem, arm, bs[i].ea)
    ensures var (s1, bs1) := AddEntries(s, arm, false, bs, envs);
            var ds := Homed(arm, Added(bs1));
            AllDeletable(ds) && DelEntries(s1, arm, ds, Kept(bs1, envs')).0.mem == s.mem
  {
    hide DelEntries;
    hide AddEntries;
    hide CodeAt;
    hide Apart;
    hide WriteCount;
    BatchUndoIff(s, arm, bs, envs, envs');
    forall i | 0 <= i < |bs| ensures Back(s.mem, arm, bs[i], envs[i], envs'[i]) {
      if bs[i].soft { assert Untorn(envs[i], Home(arm, bs[i].ea), Width(s.mem, arm, bs[i].ea)); }
    }
  }

  // ---------------------------------------------------------------- deletion elsewhere

  /** Writing the first w of the bytes a breakpoint replaced to any address gives the memory
      back exactly when they are the bytes there, and code outside that range equals what it
      replaced. */
  lemma PutBackIff(mem: seq<bv8>, at: word, code: seq<bv8>, ea: word, w: nat)
    requires IsImage(mem) && w <= |code| <= 4
    ensures var org := Slice(mem, at, |code|);
            Written(Written(mem, at, code), ea, org[..w]) == mem <==>
            && Slice(mem, ea, w) == org[..w]
            && (forall i :: 0 <= i < |code| && !Covers(ea, w, At(at, i)) ==> code[i] == org[i])
  {
    var n, org := |code|, Slice(mem, at, |code|);
    var mid := Written(mem, at, code);
    var r := Written(mid, ea, org[..w]);
    ReadAfterWrite(mid, ea, org[..w]);
    if r == mem {
      forall i | 0 <= i < n && !Covers(ea, w, At(at, i)) ensures code[i] == org[i] {
        assert Off(at, At(at, i)) == i;
        assert r[At(at, i)] == mid[At(at, i)] == code[i];
      }
    } else {
      var a: word :| a < TWO_32 && r[a] != mem[a];
      assert At(ea, Off(ea, a)) == a && At(at, Off(at, a)) == a;
      if Covers(ea, w, a) { assert Slice(mem, ea, w)[Off(ea, a)] == mem[a]; }
    }
  }

  // Do the n bytes at ea all have the value v?
  predicate AllAre(mem: seq<bv8>, ea: word, n: nat, v: bv8)
    requires IsImage(mem) && n <= TWO_32
  {
    forall i :: 0 <= i < n ==> mem[At(ea, i)] == v
  }

  // From its byte w on the code is what it replaced.
  predicate Unchanged(mem: seq<bv8>, at: word, code: seq<bv8>, w: nat)
    requires IsImage(mem) && |code| <= 4
  {
    forall i :: w <= i < |code| ==> code[i] == mem[At(at, i)]
  }

  /** The address an entry was added at is odd for Thumb code.  Deleting the entry there, with
      the bytes it reported, writes them one address too high.  If w of them are written, it
      gives the memory back exactly when the first w + 1 bytes of the instruction and what is
      behind it all equal the first byte of the code, and the code's bytes after those are
      what they replaced; for a complete write that is the whole instruction and the byte
      behind it. */
  lemma OddDeletionIff(s: Soft, clean: seq<bv8>, b: UpdateBpt, e: Env, e': Env)
    requires Overlay(s, clean) && |e.junk| == SAVED_SIZE && b.ea % 2 == 1 && Free(s, clean, true, b) && b.soft
    requires AddEntry(s, true, false, b, e).1.code == BPT_OK
    ensures var (s1, b1) := AddEntry(s, true, false, b, e);
            var code := CodeAt(clean, true, b.ea);
            var w := WriteCount(e', b.ea, |code|);
            && b1.ea == b.ea && b1.soft && |b1.orgbytes| == |code|
            && (DelEntry(s1, true, b1, e').0.mem == s.mem
                <==> AllAre(s.mem, b.ea - 1, w + 1, code[0]) && Unchanged(s.mem, b.ea - 1, code, w + 1))
  {
    var at, code := b.ea - 1, CodeAt(clean, true, b.ea);
    var (s1, b1) := AddEntry(s, true, false, b, e);
    AddEntryDone(s, clean, true, b, e);
    CleanSlice(s, clean, at, |code|);
    var org := Slice(s.mem, at, |code|);
    var w := WriteCount(e', b.ea, |code|);
    assert b1.orgbytes == org && org[..|org|] == org;
    PutBackIff(s.mem, at, code, b.ea, w);
    ShiftedIff(s.mem, at, code, w);
  }

  // The condition of PutBackIff one address higher.
  lemma ShiftedIff(mem: seq<bv8>, at: word, code: seq<bv8>, w: nat)
    requires IsImage(mem) && 0 < |code| <= 4 && w <= |code| && at + 1 < TWO_32
    ensures var n, org, ea := |code|, Slice(mem, at, |code|), at + 1;
            (Slice(mem, ea, w) == org[..w]
             && (forall i :: 0 <= i < n && !Covers(ea, w, At(at, i)) ==> code[i] == org[i]))
            <==> AllAre(mem, at, w + 1, code[0]) && Unchanged(mem, at, code, w + 1)
  {
    var n, org, ea := |code|, Slice(mem, at, |code|), at + 1;
    forall i | 0 <= i <= n
      ensures (i < n ==> At(ea, i) == At(at, i + 1)) && (Covers(ea, w, At(at, i)) <==> 0 < i <= w)
    {
      if i > 0 { assert Off(ea, At(at, i)) == i - 1; }
    }
    var shifted := Slice(mem, ea, w);
    if shifted == org[..w] && code[0] == org[0] {
      assert org[..w] == Slice(mem, at, w);
      forall i | 0 <= i <= w ensures mem[At(at, i)] == code[0] { SameAll(mem, at, w, i); }
    } else if AllAre(mem, at, w + 1, code[0]) {
      forall i | 0 <= i < w ensures shifted[i] == org[..w][i] { assert At(ea, i) == At(at, i + 1); }
    }
  }

  lemma SameAll(mem: seq<bv8>, at: word, n: nat, i: nat)
    requires IsImage(mem) && i <= n <= 4 && at + 1 < TWO_32
    requires Slice(mem, at + 1, n) == Slice(mem, at, n)
    ensures mem[At(at, i)] == mem[at]
  {
    if i > 0 {
      SameAll(mem, at, n, i - 1);
      assert Slice(mem, at + 1, n)[i - 1] == Slice(mem, at, n)[i - 1];
      assert At(at + 1, i - 1) == At(at, i);
    }
  }

  /** For instance in memory that is all zero: the first byte of the code stays at 0x1000. */
  lemma OddDeletionMisses(e: Env)
    requires e.alive && e.faults == Faults({}, {}, {}) && |e.junk| == SAVED_SIZE
    ensures var s := Soft(seq(TWO_32, _ => 0), map[], {});
            var (s1, b1) := AddEntry(s, true, false, UpdateBpt(0x1001, true, 0, [], BPT_OK), e);
            && b1 == UpdateBpt(0x1001, true, 0, [0, 0], BPT_OK)
            && Slice(s1.mem, 0x1000, 2) == THUMB16_BPT
            && DelEntry(s1, true, b1, e).0.mem[0x1000] == THUMB16_BPT[0]
  {
    var s := Soft(seq(TWO_32, _ => 0), map[], {});
    var b := UpdateBpt(0x1001, true, 0, [], BPT_OK);
    assert CodeAt(s.mem, true, 0x1001) == THUMB16_BPT;
    FreshOverlay(s.mem);
    assert Free(s, s.mem, true, b);
    AddEntryDone(s, s.mem, true, b, e);
    AddDone(s, 0x1000, THUMB16_BPT, e);
    ReadAfterWrite(s.mem, 0x1000, THUMB16_BPT);
    var (s1, b1) := AddEntry(s, true, false, b, e);
    assert b1.orgbytes == [0, 0];
    assert b1.orgbytes[..2] == b1.orgbytes;
    assert Off(0x1001, 0x1000) >= 2;
  }
}
