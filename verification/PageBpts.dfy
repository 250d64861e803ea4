/** The search for a page breakpoint that a memory access would hit: one step into the map
    of page breakpoints instead of a scan of all of them. */
module PageBpts {
  import opened DebugEvents
  import opened LeastElement

  const PAGE_SIZE: nat := 0x1000

  // The part of pagebpt_data_t that the search looks at; the map is indexed by page.
  datatype PageBpt = PageBpt(ea: word, kind: int, realLen: word)

  type PageBpts = map<word, PageBpt>

  // Unsigned addition.
  function Plus(x: word, y: nat): word
    requires y < TWO_32
  {
    if x + y < TWO_32 then x + y else x + y - TWO_32
  }

  // interval::overlap
  predicate Overlap(off1: word, s1: nat, off2: word, s2: nat)
    requires s1 < TWO_32 && s2 < TWO_32
  {
    off2 < Plus(off1, s1) && off1 < Plus(off2, s2)
  }

  // Do the ranges have an address in common?  (Those that do not wrap around.)
  predicate Meet(off1: word, s1: nat, off2: word, s2: nat) {
    off2 < off1 + s1 && off1 < off2 + s2
  }

  /** The program's test misses exactly the ranges that reach the end of the address space,
      because the end wraps around to zero. */
  lemma OverlapIff(off1: word, s1: word, off2: word, s2: word)
    requires off1 + s1 <= TWO_32 && off2 + s2 <= TWO_32
    ensures Overlap(off1, s1, off2, s2) <==>
              Meet(off1, s1, off2, s2) && off1 + s1 < TWO_32 && off2 + s2 < TWO_32
  {
    assert off1 + s1 == TWO_32 <==> Plus(off1, s1) < off1 + s1;
  }

  function PageBase(ea: word): word { ea - ea % PAGE_SIZE }

  // Pages are aligned, their lengths positive multiples of the page size, and no two overlap.
  ghost predicate Tidy(b: PageBpts) {
    && (forall k :: k in b ==> k % PAGE_SIZE == 0 && b[k].realLen > 0 && b[k].realLen % PAGE_SIZE == 0)
    && (forall k :: k in b ==> k + b[k].realLen <= TWO_32)
    && (forall k, l :: k in b && l in b && k < l ==> k + b[k].realLen <= l)
  }

  // Does the entry at k reach the end of the address space?
  predicate AtEnd(b: PageBpts, k: word)
    requires k in b
  {
    k + b[k].realLen == TWO_32
  }

  // Is k the first entry from the page of ea on?
  ghost predicate FirstFrom(b: PageBpts, ea: word, k: word) {
    forall l :: l in b && PageBase(ea) <= l ==> k <= l
  }

  // The greatest key below a bound, for stepping an iterator back.
  method PickGreatest(s: set<int>) returns (g: int)
    requires s != {}
    ensures g in s && forall u :: u in s ==> u <= g
  {
    HasElement(s);
    var t :| t in s;
    var negated := set u | u in s :: -u;
    assert -t in negated;
    var l := PickLeast(negated);
    g := -l;
    assert forall u :: u in s ==> -u in negated;
  }

  // A page at or after the page of ea that begins before the end of the range covers it.
  lemma LaterPageMeets(b: PageBpts, ea: word, size: word, k: word)
    requires Tidy(b) && k in b && PageBase(ea) <= k < ea + size
    ensures Meet(ea, size, k, b[k].realLen)
  {
    assert PageBase(ea) + PAGE_SIZE > ea;
    assert b[k].realLen >= PAGE_SIZE;
  }

  // Among the pages before the page of ea only the last one can reach it.
  lemma EarlierPages(b: PageBpts, ea: word, size: word, q: word, k: word)
    requires Tidy(b) && q in b && k in b && k < q <= ea
    ensures !Meet(ea, size, k, b[k].realLen)
  {
  }

  // For a range that wraps around, the test asks for both of its parts.
  lemma OverlapWrapped(off1: word, s1: word, off2: word, s2: word)
    requires off1 + s1 > TWO_32 && off2 + s2 <= TWO_32
    ensures Overlap(off1, s1, off2, s2) <==>
              off2 < off1 + s1 - TWO_32 && off1 < off2 + s2 && off2 + s2 < TWO_32
  {
  }

  // In that case only the entry that contains ea can pass, and the search looks at it.
  lemma WrappedLooksAt(b: PageBpts, ea: word, size: word, p: word)
    requires Tidy(b) && ea + size > TWO_32 && p in b
    requires (PageBase(ea) <= p < Plus(ea, size) && FirstFrom(b, ea, p))
             || (p <= ea && forall k :: k in b && p < k ==> PageBase(ea) <= k && Plus(ea, size) <= k)
    ensures forall k :: k in b && k != p ==> !Overlap(ea, size, k, b[k].realLen)
  {
    forall k | k in b && k != p ensures !Overlap(ea, size, k, b[k].realLen) {
      OverlapWrapped(ea, size, k, b[k].realLen);
      if p > ea || !(forall l :: l in b && p < l ==> PageBase(ea) <= l && Plus(ea, size) <= l) {
        FirstContains(b, ea, size, p);
      }
    }
  }

  lemma FirstContains(b: PageBpts, ea: word, size: word, p: word)
    requires Tidy(b) && ea + size > TWO_32 && p in b && PageBase(ea) <= p < Plus(ea, size)
    ensures p <= ea < p + b[p].realLen
  {
    assert b[p].realLen >= PAGE_SIZE;
  }

  // What the search should come to: r is an entry that meets the range, and none is found
  // if and only if no entry does, or the range reaches the end of the address space, or an
  // entry that does is the first from the page of ea on; for a range that wraps around, if
  // and only if no entry meets both its ends.
  ghost predicate IsAnswer(b: PageBpts, ea: word, size: word, r: Option<word>) {
    && (r.Some? ==> r.value in b && Meet(ea, size, r.value, b[r.value].realLen) && !AtEnd(b, r.value))
    && (ea + size <= TWO_32 ==>
          (r.None? <==>
             || ea + size == TWO_32
             || (forall k :: k in b ==> !Meet(ea, size, k, b[k].realLen))
             || (exists q :: q in b && AtEnd(b, q) && Meet(ea, size, q, b[q].realLen) && FirstFrom(b, ea, q))))
    && (ea + size > TWO_32 ==>
          (r.None? <==> forall k :: k in b ==> AtEnd(b, k) || !(k < ea + size - TWO_32 && ea < k + b[k].realLen)))
  }

  /** The search finds a page breakpoint that meets the range if and only if there is one,
      except in three cases: a range that reaches the end of the address space finds none, an
      entry that does hides itself and, if it is the first from the page of ea on, the one
      before it, and a range that wraps around finds only an entry that meets both its ends. */
  method FindPageBpt(b: PageBpts, ea: word, size: word) returns (r: Option<word>)
    requires Tidy(b)
    ensures IsAnswer(b, ea, size, r)
  {
    hide IsAnswer;
    hide Tidy;
    var from := set k | k in b.Keys && k >= PageBase(ea);
    var p := BADADDR;
    var atEnd := from == {};
    if !atEnd { p := PickLeast(from); }
    if atEnd || p >= Plus(ea, size) {
      // --p
      var before := if atEnd then b.Keys else set k | k in b.Keys && k < p;
      if before == {} {
        assert forall k :: k in b && k !in from ==> k in before;
        NothingBefore(b, ea, size, from, p);
        return None;
      }
      ghost var next := p;
      p := PickGreatest(before);
      assert forall k :: k in b && (from != {} ==> k < next) ==> k in before;
      SteppedBack(b, ea, size, from, next, p);
    } else {
      assert p in from;
      assert FirstFrom(b, ea, p) by {
        assert forall l :: l in b && PageBase(ea) <= l ==> l in from;
      }
      SteppedOn(b, ea, size, p);
    }
    if !Overlap(ea, size, p, b[p].realLen) { return None; }
    return Some(p);
  }

  // The answer when the entry at p is tested.
  ghost function Tested(b: PageBpts, ea: word, size: word, p: word): Option<word>
    requires p in b
  {
    if Overlap(ea, size, p, b[p].realLen) then Some(p) else None
  }

  lemma SteppedOn(b: PageBpts, ea: word, size: word, p: word)
    requires Tidy(b) && p in b && FirstFrom(b, ea, p) && PageBase(ea) <= p < Plus(ea, size)
    ensures IsAnswer(b, ea, size, Tested(b, ea, size, p))
  {
    Decided(b, ea, size, p);
    if ea + size <= TWO_32 {
      LaterPageMeets(b, ea, size, p);
      forall q | q in b && AtEnd(b, q) ensures p != q ==> !FirstFrom(b, ea, q) {
        assert p != q ==> p < q;
      }
    } else {
      WrappedLooksAt(b, ea, size, p);
    }
  }

  lemma SteppedBack(b: PageBpts, ea: word, size: word, from: set<word>, next: word, p: word)
    requires Tidy(b) && p in b && from == set k | k in b.Keys && k >= PageBase(ea)
    requires from != {} ==> next in from && (forall k :: k in from ==> next <= k) && Plus(ea, size) <= next && p < next
    requires forall k :: k in b && (from != {} ==> k < next) ==> k <= p
    ensures IsAnswer(b, ea, size, Tested(b, ea, size, p))
  {
    Decided(b, ea, size, p);
    if ea + size < TWO_32 { OnlyBefore(b, ea, size, from, next, p); }
    if ea + size > TWO_32 { LastBefore(b, ea, size, from, next, p); }
  }

  // What the final test of the entry at p means.
  lemma Decided(b: PageBpts, ea: word, size: word, p: word)
    requires Tidy(b) && p in b
    ensures ea + size <= TWO_32 ==>
              (Overlap(ea, size, p, b[p].realLen) <==>
                 Meet(ea, size, p, b[p].realLen) && ea + size < TWO_32 && !AtEnd(b, p))
    ensures ea + size > TWO_32 ==>
              (forall k :: k in b ==>
                 (Overlap(ea, size, k, b[k].realLen) <==>
                    k < ea + size - TWO_32 && ea < k + b[k].realLen && !AtEnd(b, k)))
  {
    if ea + size <= TWO_32 {
      OverlapIff(ea, size, p, b[p].realLen);
    } else {
      forall k | k in b
        ensures Overlap(ea, size, k, b[k].realLen) <==>
                  k < ea + size - TWO_32 && ea < k + b[k].realLen && !AtEnd(b, k)
      {
        OverlapWrapped(ea, size, k, b[k].realLen);
      }
    }
  }

  lemma NothingBefore(b: PageBpts, ea: word, size: word, from: set<word>, p: word)
    requires Tidy(b) && from == set k | k in b.Keys && k >= PageBase(ea)
    requires from != {} ==> (forall k :: k in from ==> p <= k) && Plus(ea, size) <= p
    requires forall k :: k in b ==> k in from
    ensures IsAnswer(b, ea, size, None)
  {
    if ea + size < TWO_32 { NoneBefore(b, ea, size, from, p); }
    if ea + size > TWO_32 {
      forall k | k in b ensures k >= ea + size - TWO_32 { assert k in from; }
    }
  }

  lemma LastBefore(b: PageBpts, ea: word, size: word, from: set<word>, next: word, p: word)
    requires Tidy(b) && p in b && from == (set k | k in b.Keys && k >= PageBase(ea)) && ea + size > TWO_32
    requires from != {} ==> next in from && (forall k :: k in from ==> next <= k) && Plus(ea, size) <= next && p < next
    requires forall k :: k in b && (from != {} ==> k < next) ==> k <= p
    ensures forall k :: k in b && k != p ==> !Overlap(ea, size, k, b[k].realLen)
  {
    assert p !in from;
    forall k | k in b && p < k ensures PageBase(ea) <= k && Plus(ea, size) <= k { assert k in from; }
    WrappedLooksAt(b, ea, size, p);
  }

  lemma NoneBefore(b: PageBpts, ea: word, size: word, from: set<word>, p: word)
    requires from == set k | k in b.Keys && k >= PageBase(ea)
    requires from != {} ==> (forall k :: k in from ==> p <= k) && ea + size <= p
    requires forall k :: k in b ==> k in from
    ensures forall k :: k in b ==> !Meet(ea, size, k, b[k].realLen)
  {
    forall k | k in b ensures !Meet(ea, size, k, b[k].realLen) { assert k in from; }
  }

  // When the iterator has been stepped back to p, no other entry meets the range.
  lemma OnlyBefore(b: PageBpts, ea: word, size: word, from: set<word>, next: word, p: word)
    requires Tidy(b) && p in b && from == set k | k in b.Keys && k >= PageBase(ea)
    requires from != {} ==> next in from && (forall k :: k in from ==> next <= k) && ea + size <= next && p < next
    requires forall k :: k in b && (from != {} ==> k < next) ==> k <= p
    ensures p < PageBase(ea) && FirstFrom(b, ea, p)
    ensures forall k :: k in b && k != p ==> !Meet(ea, size, k, b[k].realLen)
  {
    assert p !in from;
    forall k | k in b && k != p ensures !Meet(ea, size, k, b[k].realLen) {
      if k < p { EarlierPages(b, ea, size, p, k); } else { assert from != {} && k >= next; }
    }
  }

  /** For instance a breakpoint on the last page of the address space is never found. */
  lemma LastPageMissed(ea: word)
    requires ea >= 0xFFFF_F000
    ensures Meet(ea, 1, 0xFFFF_F000, PAGE_SIZE) && !Overlap(ea, 1, 0xFFFF_F000, PAGE_SIZE)
  {
    OverlapIff(ea, 1, 0xFFFF_F000, PAGE_SIZE);
  }
}
