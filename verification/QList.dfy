/** The intrusive circular list: data nodes linked into a ring with a sentinel.  Iterators
    are nodes; the sentinel is the end of the list. */
module QList {

  class Node<T(0)> {
    var next: Node?<T>
    var prev: Node?<T>
    var data: T

    constructor (data: T)
      ensures this.data == data
    {
      this.next, this.prev, this.data := null, null, data;
    }
  }

  // The node after index i of a ring.
  function After<T(0)>(r: seq<Node<T>>, i: nat): Node<T>
    requires i < |r|
  {
    if i + 1 < |r| then r[i + 1] else r[0]
  }

  ghost predicate Distinct<T(0)>(r: seq<Node<T>>) {
    forall i, j :: 0 <= i < j < |r| ==> r[i] != r[j]
  }

  ghost predicate Forward<T(0)>(r: seq<Node<T>>)
    requires |r| > 0
    reads r
  {
    forall i: nat :: i < |r| ==> r[i].next == After(r, i)
  }

  ghost predicate Backward<T(0)>(r: seq<Node<T>>)
    requires |r| > 0
    reads r
  {
    forall i: nat :: i < |r| ==> After(r, i).prev == r[i]
  }

  // The nodes of r are different and linked in a circle, both ways.
  ghost predicate IsRing<T(0)>(r: seq<Node<T>>)
    reads r
  {
    |r| > 0 && Distinct(r) && Forward(r) && Backward(r)
  }

  // The ring r with tmp linked in before index k: only one next and one prev differ.
  lemma LinkForward<T(0)>(r: seq<Node<T>>, k: nat, tmp: Node<T>)
    requires 0 < k <= |r| && tmp.next == After(r, k - 1)
    requires forall i: nat :: i < |r| ==> r[i].next == if i == k - 1 then tmp else After(r, i)
    ensures Forward(r[..k] + [tmp] + r[k..])
  {
    var s := r[..k] + [tmp] + r[k..];
    forall i: nat | i < |s| ensures s[i].next == After(s, i) {
      if i < k { assert s[i] == r[i]; }
      if i > k { assert s[i] == r[i - 1]; }
    }
  }

  lemma LinkBackward<T(0)>(r: seq<Node<T>>, k: nat, tmp: Node<T>)
    requires 0 < k <= |r| && tmp.prev == r[k - 1]
    requires forall i: nat :: i < |r| ==> After(r, i).prev == if i == k - 1 then tmp else r[i]
    ensures Backward(r[..k] + [tmp] + r[k..])
  {
    var s := r[..k] + [tmp] + r[k..];
    forall i: nat | i < |s| ensures After(s, i).prev == s[i] {
      if i < k - 1 {
        assert After(s, i) == After(r, i);
      } else if i >= k {
        assert After(s, i) == After(r, i - 1);
        assert After(r, i - 1).prev == if i - 1 == k - 1 then tmp else r[i - 1];
      }
    }
  }

  // The ring r with index k taken out.
  lemma UnlinkForward<T(0)>(r: seq<Node<T>>, k: nat)
    requires 0 < k < |r|
    requires forall i: nat :: i < |r| && i != k ==> r[i].next == if i == k - 1 then After(r, k) else After(r, i)
    ensures Forward(r[..k] + r[k + 1..])
  {
    var s := r[..k] + r[k + 1..];
    forall i: nat | i < |s| ensures s[i].next == After(s, i) {
      if i < k { assert s[i] == r[i]; } else { assert s[i] == r[i + 1]; }
    }
  }

  lemma UnlinkBackward<T(0)>(r: seq<Node<T>>, k: nat)
    requires 0 < k < |r|
    requires forall i: nat :: i < |r| && i != k - 1 ==> After(r, i).prev == if i == k then r[k - 1] else r[i]
    ensures Backward(r[..k] + r[k + 1..])
  {
    var s := r[..k] + r[k + 1..];
    forall i: nat | i < |s| ensures After(s, i).prev == s[i] {
      if i < k - 1 {
        assert After(s, i) == After(r, i);
      } else {
        assert After(s, i) == After(r, i + 1);
        assert After(r, i + 1).prev == if i + 1 == k then r[k - 1] else r[i + 1];
      }
    }
  }

  lemma UnlinkDistinct<T(0)>(r: seq<Node<T>>, k: nat)
    requires 0 < k < |r| && Distinct(r)
    ensures Distinct(r[..k] + r[k + 1..]) && r[k] !in r[..k] + r[k + 1..]
  {
  }

  lemma LinkDistinct<T(0)>(r: seq<Node<T>>, k: nat, tmp: Node<T>)
    requires k <= |r| && Distinct(r) && tmp !in r
    ensures Distinct(r[..k] + [tmp] + r[k..])
  {
  }

  // c with its own elements from lo up to hi inserted at position k.
  function Copied<T>(c: seq<T>, k: nat, lo: nat, hi: nat): seq<T>
    requires k <= |c| && lo <= hi <= |c|
  {
    c[..k] + c[lo..hi] + c[k..]
  }

  // Where position x of the list is once i - i0 elements are inserted at k.
  function Ahead(k: nat, i0: nat, i: nat, x: nat): nat
    requires i0 <= i
  {
    if k <= i0 then x + (i - i0) else x
  }

  lemma OneMore<T>(c: seq<T>, k: nat, lo: nat, i: nat)
    requires k <= |c| && lo <= i < |c| && (k <= lo || i < k)
    ensures var b, at, end := Copied(c, k, lo, i), Ahead(k, lo, i, i), k + (i - lo);
            at < |b| && end <= |b| && b[..end] + [b[at]] + b[end..] == Copied(c, k, lo, i + 1)
  {
    var b := Copied(c, k, lo, i);
    assert c[lo..i + 1] == c[lo..i] + [c[i]];
    assert b[..k + (i - lo)] == c[..k] + c[lo..i];
    assert b[k + (i - lo)..] == c[k..];
  }

  class List<T(0)> {
    const node: Node<T>
    var length: nat
    ghost var ring: seq<Node<T>>

    ghost predicate Valid()
      reads this, ring
    {
      IsRing(ring) && ring[0] == node && length == |ring| - 1
    }

    ghost function Contents(): (s: seq<T>)
      requires Valid()
      reads this, ring
      ensures |s| == length
    {
      seq(length, i requires 0 <= i < |ring| - 1 reads this, ring => ring[i + 1].data)
    }

    // The iterator p is before position k - 1 of the list; the end is before position length.
    ghost predicate Points(p: Node<T>, k: nat)
      requires |ring| > 0
      reads this
    {
      0 < k <= |ring| && p == After(ring, k - 1)
    }

    constructor ()
      ensures Valid() && Contents() == [] && fresh(ring)
    {
      var d: T := *;
      node := new Node(d);
      length := 0;
      new;
      node.next, node.prev := node, node;
      ring := [node];
    }

    method Linkin(p: Node<T>, tmp: Node<T>, ghost k: nat)
      requires Valid() && Points(p, k) && tmp !in ring
      modifies this, ring, tmp
      ensures Valid() && length == old(length) + 1
      ensures ring == old(ring)[..k] + [tmp] + old(ring)[k..]
      ensures tmp.data == old(tmp.data) && forall n :: n in old(ring) ==> n.data == old(n.data)
    {
      hide IsRing;
      ghost var r := ring;
      RingFacts(r, k);
      Splice(p, tmp, k);
      length := length + 1;
      LinkDistinct(r, k, tmp);
      LinkForward(r, k, tmp);
      LinkBackward(r, k, tmp);
      ring := r[..k] + [tmp] + r[k..];
      MakeRing(ring);
    }

    // The four assignments of linkin, link by link.
    method Splice(p: Node<T>, tmp: Node<T>, ghost k: nat)
      requires |ring| > 0 && Distinct(ring) && Forward(ring) && Backward(ring) && Points(p, k) && tmp !in ring
      requires p.prev == ring[k - 1]
      modifies ring, tmp
      ensures tmp.next == p && tmp.prev == ring[k - 1]
      ensures forall i: nat :: i < |ring| ==> ring[i].next == if i == k - 1 then tmp else After(ring, i)
      ensures forall i: nat :: i < |ring| ==> After(ring, i).prev == if i == k - 1 then tmp else ring[i]
      ensures tmp.data == old(tmp.data) && forall n :: n in ring ==> n.data == old(n.data)
    {
      AfterDistinct(ring);
      tmp.next := p;
      tmp.prev := p.prev;
      p.prev.next := tmp;
      p.prev := tmp;
    }

    method Unlink(p: Node<T>, ghost k: nat)
      requires Valid() && Points(p, k) && k < |ring|
      modifies this, ring
      ensures Valid() && length == old(length) - 1
      ensures ring == old(ring)[..k] + old(ring)[k + 1..]
      ensures forall n :: n in old(ring) ==> n.data == old(n.data)
    {
      hide IsRing;
      ghost var r := ring;
      RingFacts(r, k);
      RingFacts(r, k + 1);
      p.prev.next := p.next;
      p.next.prev := p.prev;
      length := length - 1;
      AfterDistinct(r);
      UnlinkDistinct(r, k);
      UnlinkForward(r, k);
      UnlinkBackward(r, k);
      ring := r[..k] + r[k + 1..];
      MakeRing(ring);
    }

    // begin() and end()
    method Begin() returns (p: Node<T>)
      requires Valid()
      ensures Points(p, 1)
    {
      assert ring[0].next == After(ring, 0);
      p := node.next;
    }

    method Advance(p: Node<T>, ghost k: nat) returns (q: Node<T>)
      requires Valid() && Points(p, k) && k < |ring|
      ensures Points(q, k + 1)
    {
      assert ring[k].next == After(ring, k);
      q := p.next;
    }

    lemma PointsBounds(p: Node<T>, k: nat, q: Node<T>, l: nat)
      requires Valid() && Points(p, k) && Points(q, l)
      ensures 0 < k <= |ring| && 0 < l <= |ring|
    {
    }

    lemma EndPoints()
      requires Valid()
      ensures Points(node, |ring|) && |ring| == length + 1
    {
    }

    // Two iterators are equal when they stand at the same position.
    lemma SamePosition(p: Node<T>, k: nat, q: Node<T>, l: nat)
      requires Valid() && Points(p, k) && Points(q, l)
      ensures p == q <==> k == l
    {
      AfterDistinct(ring);
    }

    method Insert(p: Node<T>, x: T, ghost k: nat) returns (tmp: Node<T>)
      requires Valid() && Points(p, k)
      modifies this, ring
      ensures Valid() && fresh(tmp) && ring == old(ring)[..k] + [tmp] + old(ring)[k..]
      ensures Contents() == old(Contents())[..k - 1] + [x] + old(Contents())[k - 1..]
      ensures Points(tmp, k) && Points(p, k + 1)
      ensures forall n :: n in old(ring) ==> n.data == old(n.data)
    {
      hide IsRing;
      tmp := new Node(x);
      Linkin(p, tmp, k);
      assert tmp == ring[k];
      InsertedContents(old(ring), old(Contents()), k, x);
    }

    // The contents after a node with x was linked in before ring index k.
    lemma InsertedContents(r: seq<Node<T>>, c: seq<T>, k: nat, x: T)
      requires Valid() && 0 < k <= |r| == |c| + 1 && |ring| == |r| + 1
      requires ring == r[..k] + [ring[k]] + r[k..] && ring[k].data == x
      requires forall i :: 0 <= i < |c| ==> r[i + 1].data == c[i]
      ensures Contents() == c[..k - 1] + [x] + c[k - 1..]
    {
      var d := c[..k - 1] + [x] + c[k - 1..];
      forall i | 0 <= i < |d| ensures Contents()[i] == d[i] {
        if i < k - 1 { assert ring[i + 1] == r[i + 1]; }
        if i > k - 1 { assert ring[i + 1] == r[(i - 1) + 1]; }
      }
    }

    method Erase(p: Node<T>, ghost k: nat)
      requires Valid() && Points(p, k) && k < |ring|
      modifies this, ring
      ensures Valid() && ring == old(ring)[..k] + old(ring)[k + 1..]
      ensures Contents() == old(Contents())[..k - 1] + old(Contents())[k..]
      ensures forall n :: n in old(ring) ==> n.data == old(n.data)
    {
      hide IsRing;
      Unlink(p, k);
      ErasedContents(old(ring), old(Contents()), k);
    }

    lemma ErasedContents(r: seq<Node<T>>, c: seq<T>, k: nat)
      requires Valid() && 0 < k < |r| == |c| + 1 && ring == r[..k] + r[k + 1..]
      requires forall i :: 0 <= i < |c| ==> r[i + 1].data == c[i]
      ensures Contents() == c[..k - 1] + c[k..]
    {
      var d := c[..k - 1] + c[k..];
      forall i | 0 <= i < |d| ensures Contents()[i] == d[i] {
        if i < k - 1 { assert ring[i + 1] == r[i + 1]; } else { assert ring[i + 1] == r[(i + 1) + 1]; }
      }
    }

    ghost predicate Apart(other: List<T>)
      reads this, other
    {
      other != this && forall n :: n in other.ring ==> n !in ring
    }

    // *first++ inserted before p; pre and post are the contents around it.
    method InsertNext(p: Node<T>, src: List<T>, first: Node<T>, ghost i: nat, ghost pre: seq<T>, ghost post: seq<T>)
      returns (next: Node<T>)
      requires Valid() && Contents() == pre + post && Points(p, |pre| + 1)
      requires src.Valid() && Apart(src) && src.Points(first, i) && i < |src.ring|
      modifies this, ring
      ensures Valid() && Points(p, |pre| + 2) && fresh(set n | n in ring && n !in old(ring))
      ensures src.Valid() && Apart(src) && src.ring == old(src.ring) && src.Contents() == old(src.Contents())
      ensures Contents() == (pre + [src.Contents()[i - 1]]) + post
      ensures src.Points(next, i + 1)
    {
      hide IsRing;
      assert first == src.ring[i] && src.Contents()[i - 1] == first.data;
      next := src.Advance(first, i);
      assert (pre + post)[..|pre|] == pre && (pre + post)[|pre|..] == post;
      var _ := Insert(p, first.data, |pre| + 1);
    }

    // Insert the elements of another list from first up to last before p.
    method InsertRange(p: Node<T>, src: List<T>, first0: Node<T>, last: Node<T>,
                       ghost i0: nat, ghost j: nat, ghost pre: seq<T>, ghost post: seq<T>)
      requires Valid() && Contents() == pre + post && Points(p, |pre| + 1)
      requires src.Valid() && Apart(src)
      requires src.Points(first0, i0) && src.Points(last, j) && i0 <= j
      modifies this, ring
      ensures Valid() && src.Valid() && src.ring == old(src.ring) && src.Contents() == old(src.Contents())
      ensures Contents() == (pre + src.Contents()[i0 - 1..j - 1]) + post
      ensures fresh(set n | n in ring && n !in old(ring))
    {
      hide IsRing;
      var first := first0;
      ghost var i, done := i0, pre;
      while first != last
        invariant Valid() && src.Valid() && src.ring == old(src.ring) && src.Contents() == old(src.Contents())
                  && Apart(src)
        invariant i0 <= i <= j && src.Points(first, i) && done == pre + src.Contents()[i0 - 1..i - 1]
        invariant Contents() == done + post && Points(p, |done| + 1)
        invariant fresh(set n | n in ring && n !in old(ring))
        decreases j - i
      {
        src.SamePosition(first, i, last, j);
        first := InsertNext(p, src, first, i, done, post);
        ghost var c := src.Contents();
        assert c[i0 - 1..i] == c[i0 - 1..i - 1] + [c[i - 1]];
        done := done + [c[i - 1]];
        i := i + 1;
      }
      src.SamePosition(first, i, last, j);
    }

    // Where an iterator stands after an insertion before position k.
    ghost function Shifted(i: nat, k: nat): nat {
      if i < k then i else i + 1
    }

    lemma ShiftedPoints(r: seq<Node<T>>, k: nat, q: Node<T>, i: nat)
      requires 0 < k <= |r| && |ring| == |r| + 1 && ring == r[..k] + [ring[k]] + r[k..]
      requires 0 < i <= |r| && q == After(r, i - 1)
      ensures Points(q, Shifted(i, k))
    {
      assert i < k ==> After(ring, i - 1) == After(r, i - 1);
    }

    // *first++ inserted before p, when first is an iterator of this list.
    method InsertOwnNext(p: Node<T>, first: Node<T>, ghost last: Node<T>, ghost k: nat, ghost i: nat, ghost j: nat)
      returns (next: Node<T>)
      requires Valid() && Points(p, k) && Points(first, i) && Points(last, j) && i < j && (k <= i || j < k)
      modifies this, ring
      ensures Valid() && Points(p, k + 1) && fresh(set n | n in ring && n !in old(ring))
      ensures Points(next, Shifted(i + 1, k)) && Points(last, Shifted(j, k))
      ensures Contents() == old(Contents())[..k - 1] + [old(Contents())[i - 1]] + old(Contents())[k - 1..]
    {
      hide IsRing;
      ghost var r := ring;
      assert first == ring[i] && Contents()[i - 1] == first.data;
      next := Advance(first, i);
      var tmp := Insert(p, first.data, k);
      assert ring[k] == tmp;
      ShiftedPoints(r, k, next, i + 1);
      ShiftedPoints(r, k, last, j);
    }

    // The state of copying from i0 up to j before position k, when the copying is at i.
    ghost predicate Copying(p: Node<T>, first: Node<T>, last: Node<T>, c: seq<T>, k: nat, i0: nat, i: nat, j: nat)
      reads this, ring
    {
      && Valid() && 0 < i0 <= i <= j <= |c| + 1 && 0 < k <= |c| + 1
      && Points(p, k + (i - i0))
      && Points(first, Ahead(k, i0, i, i)) && Points(last, Ahead(k, i0, i, j))
      && Contents() == Copied(c, k - 1, i0 - 1, i - 1)
    }

    method CopyOwnNext(p: Node<T>, first: Node<T>, ghost last: Node<T>,
                    ghost c: seq<T>, ghost k: nat, ghost i0: nat, ghost i: nat, ghost j: nat)
      returns (next: Node<T>)
      requires i0 <= i && Copying(p, first, last, c, k, i0, i, j) && i < j && (k <= i0 || j < k)
      modifies this, ring
      ensures Copying(p, next, last, c, k, i0, i + 1, j) && fresh(set n | n in ring && n !in old(ring))
    {
      hide *;
      CopyingFacts(p, first, last, c, k, i0, i, j);
      ghost var b := Contents();
      next := InsertOwnNext(p, first, last, k + (i - i0), Ahead(k, i0, i, i), Ahead(k, i0, i, j));
      CopyingStep(p, next, last, c, k, i0, i, j, b);
    }

    lemma CopyingFacts(p: Node<T>, first: Node<T>, last: Node<T>, c: seq<T>, k: nat, i0: nat, i: nat, j: nat)
      requires i0 <= i && Copying(p, first, last, c, k, i0, i, j) && (k <= i0 || j < k)
      ensures Valid() && 0 < i0 <= i <= j <= |c| + 1 && 0 < k <= |c| + 1
      ensures Points(p, k + (i - i0)) && Points(first, Ahead(k, i0, i, i)) && Points(last, Ahead(k, i0, i, j))
      ensures Contents() == Copied(c, k - 1, i0 - 1, i - 1) && |Contents()| == |c| + (i - i0)
      ensures i < j ==> Ahead(k, i0, i, i) < Ahead(k, i0, i, j)
      ensures k + (i - i0) <= Ahead(k, i0, i, i) || Ahead(k, i0, i, j) < k + (i - i0)
    {
    }

    // b are the contents before the element was inserted.
    lemma CopyingStep(p: Node<T>, next: Node<T>, last: Node<T>, c: seq<T>, k: nat, i0: nat, i: nat, j: nat, b: seq<T>)
      requires Valid() && 0 < i0 <= i < j <= |c| + 1 && 0 < k <= |c| + 1 && (k <= i0 || j < k)
      requires b == Copied(c, k - 1, i0 - 1, i - 1) && |b| == |c| + (i - i0)
      requires Points(p, k + (i - i0) + 1)
      requires Points(next, Shifted(Ahead(k, i0, i, i) + 1, k + (i - i0)))
      requires Points(last, Shifted(Ahead(k, i0, i, j), k + (i - i0)))
      requires var at := Ahead(k, i0, i, i);
               at <= |b| && Contents() == b[..k + (i - i0) - 1] + [b[at - 1]] + b[k + (i - i0) - 1..]
      ensures Copying(p, next, last, c, k, i0, i + 1, j)
    {
      hide IsRing;
      hide Points;
      hide Copied;
      OneMore(c, k - 1, i0 - 1, i - 1);
    }

    // Insert the elements of this list from first up to last before p.  With p after first
    // and not behind last the loop would copy its own copies for ever.
    method InsertOwnRange(p: Node<T>, first0: Node<T>, last: Node<T>, ghost k: nat, ghost i0: nat, ghost j: nat)
      requires Valid() && Points(p, k) && Points(first0, i0) && Points(last, j)
      requires i0 <= j && (k <= i0 || j < k || i0 == j)
      modifies this, ring
      ensures Valid() && fresh(set n | n in ring && n !in old(ring))
      ensures Contents() == Copied(old(Contents()), k - 1, i0 - 1, j - 1)
    {
      hide *;
      ghost var c := Contents();
      ghost var i := i0;
      var first := first0;
      CopyingBegins(p, first, last, k, i0, j);
      while first != last
        invariant i0 <= i <= j && Copying(p, first, last, c, k, i0, i, j)
        invariant fresh(set n | n in ring && n !in old(ring))
        decreases j - i
      {
        CopyingEnds(p, first, last, c, k, i0, i, j);
        first := CopyOwnNext(p, first, last, c, k, i0, i, j);
        i := i + 1;
      }
      CopyingEnds(p, first, last, c, k, i0, i, j);
    }

    lemma CopyingEnds(p: Node<T>, first: Node<T>, last: Node<T>, c: seq<T>, k: nat, i0: nat, i: nat, j: nat)
      requires i0 <= i && Copying(p, first, last, c, k, i0, i, j)
      ensures first == last <==> i == j
      ensures Valid() && 0 < i0 <= i <= j <= |c| + 1 && 0 < k <= |c| + 1
      ensures Contents() == Copied(c, k - 1, i0 - 1, i - 1)
    {
      hide IsRing;
      SamePosition(first, Ahead(k, i0, i, i), last, Ahead(k, i0, i, j));
    }

    lemma CopyingBegins(p: Node<T>, first: Node<T>, last: Node<T>, k: nat, i0: nat, j: nat)
      requires Valid() && Points(p, k) && Points(first, i0) && Points(last, j) && i0 <= j
      ensures Copying(p, first, last, Contents(), k, i0, i0, j)
    {
      var c := Contents();
      assert c == Copied(c, k - 1, i0 - 1, i0 - 1);
    }

    // erase(p1++): take out the element at ring index k and move on; q is further on.
    method EraseNext(p: Node<T>, ghost k: nat, ghost q: Node<T>, ghost l: nat) returns (next: Node<T>)
      requires Valid() && Points(p, k) && Points(q, l) && k < l
      modifies this, ring
      ensures Valid() && ring == old(ring)[..k] + old(ring)[k + 1..] && Points(next, k) && Points(q, l - 1)
      ensures Contents() == old(Contents())[..k - 1] + old(Contents())[k..]
    {
      hide IsRing;
      next := Advance(p, k);
      ghost var r := ring;
      Erase(p, k);
      assert After(ring, l - 2) == After(r, l - 1);
    }

    // Erase the elements from p1 up to p2.
    method EraseRange(p1: Node<T>, p2: Node<T>, ghost k: nat, ghost l: nat)
      requires Valid() && Points(p1, k) && Points(p2, l) && k <= l
      modifies this, ring
      ensures Valid() && ring == old(ring)[..k] + old(ring)[l..]
      ensures Contents() == old(Contents())[..k - 1] + old(Contents())[l - 1..]
    {
      hide *;
      var p := p1;
      EndPoints();
      ghost var m := k;
      ghost var r, c := ring, Contents();
      PointsBounds(p1, k, p2, l);
      assert r == r[..k] + r[k..] && c == c[..k - 1] + c[k - 1..];
      while p != p2
        invariant k <= m <= l && Valid() && ring == r[..k] + r[m..]
        invariant Points(p, k) && Points(p2, l - (m - k))
        invariant Contents() == c[..k - 1] + c[m - 1..]
        decreases l - m
      {
        SamePosition(p, k, p2, l - (m - k));
        p := EraseNext(p, k, p2, l - (m - k));
        DropOne(r, k, m);
        DropOne(c, k - 1, m - 1);
        m := m + 1;
      }
      SamePosition(p, k, p2, l - (m - k));
    }

    method Clear()
      requires Valid()
      modifies this, ring
      ensures Valid() && Contents() == [] && ring == [node]
    {
      hide IsRing;
      var first := Begin();
      EraseRange(first, node, 1, |ring|);
      assert ring == [node];
    }

    // The state of copying x over this list when the first i - 1 elements are done; c and d
    // are the contents of x and of this list at the beginning.
    ghost predicate Overwriting(x: List<T>, first1: Node<T>, first2: Node<T>, i: nat, c: seq<T>, d: seq<T>)
      reads this, ring, x, x.ring
    {
      && Valid() && x.Valid() && Apart(x) && |d| == length && |c| == x.length
      && 1 <= i <= length + 1 && i <= x.length + 1 && Points(first1, i) && x.Points(first2, i)
      && x.Contents() == c && Contents() == c[..i - 1] + d[i - 1..]
    }

    lemma OverwritingBegins(x: List<T>, first1: Node<T>, first2: Node<T>)
      requires Valid() && x.Valid() && Apart(x) && Points(first1, 1) && x.Points(first2, 1)
      ensures Overwriting(x, first1, first2, 1, x.Contents(), Contents())
    {
      var d := Contents();
      assert d == x.Contents()[..0] + d[0..];
    }

    lemma OverwritingEnds(x: List<T>, first1: Node<T>, first2: Node<T>, i: nat, c: seq<T>, d: seq<T>)
      requires Overwriting(x, first1, first2, i, c, d)
      ensures Valid() && x.Valid() && Apart(x) && Points(first1, i) && x.Points(first2, i)
      ensures 1 <= i <= length + 1 && i <= x.length + 1 && |c| == x.length && |d| == length
      ensures x.Contents() == c && Contents() == c[..i - 1] + d[i - 1..]
      ensures (first1 == node <==> i == length + 1) && (first2 == x.node <==> i == x.length + 1)
    {
      hide IsRing;
      EndPoints();
      x.EndPoints();
      SamePosition(first1, i, node, |ring|);
      x.SamePosition(first2, i, x.node, |x.ring|);
    }

    // The copying loop of operator=: elements are overwritten while both lists last.
    method CopyCommon(x: List<T>) returns (first1: Node<T>, first2: Node<T>, ghost i: nat)
      requires Valid() && x.Valid() && Apart(x)
      modifies ring
      ensures Valid() && ring == old(ring) && length == old(length)
      ensures i == 1 + (if length < x.length then length else x.length)
      ensures Points(first1, i) && x.Points(first2, i)
      ensures x.Valid() && x.ring == old(x.ring) && x.Contents() == old(x.Contents())
      ensures Contents() == x.Contents()[..i - 1] + old(Contents())[i - 1..]
    {
      hide *;
      first1 := Begin();
      first2 := x.Begin();
      i := 1;
      ghost var c, d := x.Contents(), Contents();
      OverwritingBegins(x, first1, first2);
      while first1 != node && first2 != x.node
        invariant ring == old(ring) && x.ring == old(x.ring) && length == old(length)
        invariant Overwriting(x, first1, first2, i, c, d) && i <= length + 1
        decreases length + 1 - i
      {
        OverwritingEnds(x, first1, first2, i, c, d);
        first1, first2 := CopyNext(x, first1, first2, i, c, d);
        i := i + 1;
      }
      OverwritingEnds(x, first1, first2, i, c, d);
    }

    // *p = v
    method SetData(p: Node<T>, ghost k: nat, v: T)
      requires Valid() && Points(p, k) && k < |ring|
      modifies p
      ensures Valid() && Contents() == old(Contents())[k - 1 := v]
    {
      ghost var c := Contents();
      p.data := v;
      DataChanged(c, k);
    }

    // *first1++ = *first2++
    method CopyNext(x: List<T>, first1: Node<T>, first2: Node<T>, ghost i: nat, ghost c: seq<T>, ghost d: seq<T>)
      returns (next1: Node<T>, next2: Node<T>)
      requires Overwriting(x, first1, first2, i, c, d) && i <= length && i <= x.length
      modifies ring
      ensures x.ring == old(x.ring) && ring == old(ring) && length == old(length)
      ensures Overwriting(x, next1, next2, i + 1, c, d) && i + 1 <= length + 1
    {
      hide IsRing;
      assert first1 == ring[i] && first2 == x.ring[i] && first1 in ring && first1 !in x.ring;
      assert x.Contents()[i - 1] == first2.data;
      SetData(first1, i, first2.data);
      assert (c[..i - 1] + d[i - 1..])[i - 1 := c[i - 1]] == c[..i] + d[i..];
      next1 := Advance(first1, i);
      next2 := x.Advance(first2, i);
    }

    // Only the data of the node at ring index i has changed since the contents were c.
    lemma DataChanged(c: seq<T>, i: nat)
      requires Valid() && 0 < i < |ring| == |c| + 1
      requires forall j :: 1 <= j < |ring| && j != i ==> ring[j].data == c[j - 1]
      ensures Contents() == c[i - 1 := ring[i].data]
    {
    }

    // erase(p, end()), which does not touch another list.
    method EraseTail(p: Node<T>, x: List<T>, ghost k: nat)
      requires Valid() && Points(p, k) && x.Valid() && Apart(x)
      modifies this, ring
      ensures Valid() && Contents() == old(Contents())[..k - 1]
      ensures x.Valid() && x.Contents() == old(x.Contents())
    {
      ghost var xr, r := x.ring, ring;
      EraseRange(p, node, k, |ring|);
      assert x.ring == xr;
      forall i: nat | i < |xr|
        ensures xr[i].next == old(xr[i].next) && xr[i].prev == old(xr[i].prev) && xr[i].data == old(xr[i].data)
      {
        assert xr[i] in xr && xr[i] !in r;
      }
    }

    // operator=
    method Assign(x: List<T>)
      requires Valid() && x.Valid() && (x == this || Apart(x))
      modifies this, ring
      ensures Valid() && x.Valid() && Contents() == old(x.Contents())
      ensures x != this ==> x.Contents() == old(x.Contents())
    {
      hide IsRing;
      if x != this {
        ghost var i;
        var first1, first2;
        first1, first2, i := CopyCommon(x);
        x.SamePosition(first2, i, x.node, |x.ring|);
        assert Apart(x);
        ghost var c, d := x.Contents(), Contents();
        if first2 == x.node {
          EraseTail(first1, x, i);
          assert c[..i - 1] == c;
        } else {
          InsertRange(node, x, first2, x.node, i, |x.ring|, d, []);
          assert c == c[..i - 1] + c[i - 1..|x.ring| - 1];
        }
      }
    }

    method PushBack(x: T)
      requires Valid()
      modifies this, ring
      ensures Valid() && Contents() == old(Contents()) + [x]
    {
      hide IsRing;
      var _ := Insert(node, x, |ring|);
    }

    method PushFront(x: T)
      requires Valid()
      modifies this, ring
      ensures Valid() && Contents() == [x] + old(Contents())
    {
      hide IsRing;
      var first := Begin();
      var _ := Insert(first, x, 1);
    }

    method PopFront()
      requires Valid() && length > 0
      modifies this, ring
      ensures Valid() && Contents() == old(Contents())[1..]
    {
      hide IsRing;
      var first := Begin();
      Erase(first, 1);
    }

    method PopBack()
      requires Valid() && length > 0
      modifies this, ring
      ensures Valid() && Contents() == old(Contents())[..|old(Contents())| - 1]
    {
      assert After(ring, length).prev == ring[length];
      Erase(node.prev, length);
    }
  }

  lemma DropOne<A>(s: seq<A>, k: nat, m: nat)
    requires k <= m < |s|
    ensures var t := s[..k] + s[m..]; t[..k] + t[k + 1..] == s[..k] + s[m + 1..]
  {
  }

  lemma AfterDistinct<T(0)>(r: seq<Node<T>>)
    requires |r| > 0 && Distinct(r)
    ensures forall i: nat, j: nat :: i < |r| && j < |r| && i != j ==> After(r, i) != After(r, j)
  {
  }

  lemma RingFacts<T(0)>(r: seq<Node<T>>, k: nat)
    requires IsRing(r) && 0 < k <= |r|
    ensures Distinct(r) && Forward(r) && Backward(r)
    ensures After(r, k - 1).prev == r[k - 1] && After(r, k - 1) in r && r[k - 1] in r
  {
    assert After(r, k - 1).prev == r[k - 1];
  }

  lemma MakeRing<T(0)>(r: seq<Node<T>>)
    requires |r| > 0 && Distinct(r) && Forward(r) && Backward(r)
    ensures IsRing(r)
  {
  }
}
