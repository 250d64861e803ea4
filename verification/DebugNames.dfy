/** Sending debug names to the client: address deltas and shared name prefixes, cut into
    packets that each start afresh. */
module DebugNames {
  import opened DebugEvents
  import opened Wire
  import opened WireRecords

  datatype Entry = Entry(ea: word, name: Text)

  const SZPACKET: nat := 1300

  // The address delta as sign and magnitude, modulo the address size.
  function Delta(prev: word, ea: word): word { (ea - prev) % TWO_32 }

  function Negative(prev: word, ea: word): bool { Delta(prev, ea) >= 0x8000_0000 }

  function Magnitude(prev: word, ea: word): word {
    if Negative(prev, ea) then TWO_32 - Delta(prev, ea) else Delta(prev, ea)
  }

  function Moved(prev: word, magnitude: word, negative: bool): word {
    (if negative then prev - magnitude else prev + magnitude) % TWO_32
  }

  lemma MovedBack(prev: word, ea: word)
    ensures Moved(prev, Magnitude(prev, ea), Negative(prev, ea)) == ea
  {
  }

  // The length of the common prefix.
  function Shared(a: Text, b: Text): (k: nat)
    ensures k <= |a| && k <= |b| && a[..k] == b[..k]
    ensures k < |a| && k < |b| ==> a[k] != b[k]
  {
    SharedFrom(a, b, 0)
  }

  function SharedFrom(a: Text, b: Text, i: nat): (k: nat)
    requires i <= |a| && i <= |b| && a[..i] == b[..i]
    ensures i <= k <= |a| && k <= |b| && a[..k] == b[..k]
    ensures k < |a| && k < |b| ==> a[k] != b[k]
    decreases |a| - i
  {
    if i < |a| && i < |b| && a[i] == b[i] then
      assert a[..i + 1] == a[..i] + [a[i]] && b[..i + 1] == b[..i] + [b[i]];
      SharedFrom(a, b, i + 1)
    else i
  }

  predicate Sendable(e: Entry) { |e.name| < 0x8000_0000 }

  function EncEntry(prev: word, oname: Text, e: Entry): seq<byte>
    requires Sendable(e)
  {
    var k := Shared(e.name, oname);
    PackEa(Magnitude(prev, e.ea)) + (PackDd(FlagWord(Negative(prev, e.ea))) + (PackDd(k) + (PackStr(e.name[k..]) + [])))
  }

  predicate AllSendable(es: seq<Entry>) {
    forall i :: 0 <= i < |es| ==> Sendable(es[i])
  }

  // A run of entries after an entry with address prev and name oname.
  function EncEntries(prev: word, oname: Text, es: seq<Entry>): seq<byte>
    requires AllSendable(es)
    decreases |es|
  {
    if es == [] then [] else EncEntry(prev, oname, es[0]) + EncEntries(es[0].ea, es[0].name, es[1..])
  }

  // The client's reading of a packet.
  function DecEntry(data: seq<byte>, pos: nat, prev: word, oname: Text): Parsed<Entry> {
    var (magnitude, p0) := UnpackEa(Client, data, pos);
    var (negative, p1) := UnpackDd(Client, data, p0);
    var (k, p2) := UnpackDd(Client, data, p1);
    var (suffix, p3) :- UnpackStr(data, p2);
    if k > |oname| then Abort
    else Got(Entry(Moved(prev, magnitude, negative != 0), oname[..k] + suffix), p3)
  }

  function DecEntries(data: seq<byte>, pos: nat, prev: word, oname: Text, n: nat): Parsed<seq<Entry>>
    decreases n
  {
    if n == 0 then Got([], pos)
    else
      var (e, p) :- DecEntry(data, pos, prev, oname);
      var (es, p') :- DecEntries(data, p, e.ea, e.name, n - 1);
      Got([e] + es, p')
  }

  function DecPacket(body: seq<byte>): Parsed<seq<Entry>> {
    var (n, p) := UnpackDd(Client, body, 0);
    DecEntries(body, p, 0, [], n)
  }

  lemma EntryRoundTrip(data: seq<byte>, pos: nat, prev: word, oname: Text, e: Entry)
    requires Sendable(e) && At(data, pos, EncEntry(prev, oname, e))
    ensures DecEntry(data, pos, prev, oname) == Got(e, pos + |EncEntry(prev, oname, e)|)
  {
    hide At;
    hide UnpackDd;
    hide PackDd;
    hide UnpackEa;
    hide PackEa;
    hide Moved;
    hide Magnitude;
    hide Negative;
    hide PackStr;
    hide UnpackStr;
    hide Shared;
    var k := Shared(e.name, oname);
    var suffix := e.name[k..];
    var m, neg := Magnitude(prev, e.ea), FlagWord(Negative(prev, e.ea));
    var r2 := PackStr(suffix) + [];
    var r1 := PackDd(k) + r2;
    var r0 := PackDd(neg) + r1;
    EaRead(Client, data, pos, m, r0);
    var p0 := pos + |PackEa(m)|;
    DdRead(Client, data, p0, neg, r1);
    var p1 := p0 + |PackDd(neg)|;
    DdRead(Client, data, p1, k, r2);
    StrRead(data, p1 + |PackDd(k)|, suffix, []);
    MovedBack(prev, e.ea);
    assert oname[..k] + suffix == e.name;
  }

  lemma {:induction false} EntriesRoundTrip(data: seq<byte>, pos: nat, prev: word, oname: Text, es: seq<Entry>)
    requires AllSendable(es) && At(data, pos, EncEntries(prev, oname, es))
    ensures DecEntries(data, pos, prev, oname, |es|) == Got(es, pos + |EncEntries(prev, oname, es)|)
    decreases |es|
  {
    hide EncEntry;
    hide DecEntry;
    if es != [] {
      var first, rest := EncEntry(prev, oname, es[0]), EncEntries(es[0].ea, es[0].name, es[1..]);
      AtSplit(data, pos, first, rest);
      EntryRoundTrip(data, pos, prev, oname, es[0]);
      EntriesRoundTrip(data, pos + |first|, es[0].ea, es[0].name, es[1..]);
      assert [es[0]] + es[1..] == es;
    }
  }

  /** The bytes of an entry: the distance from the address before as a magnitude, then its
      sign, then how much of the name before it shares (k, as far as they agree), and the
      rest of the name. */
  lemma EntryBytes(prev: word, oname: Text, e: Entry, k: nat)
    requires Sendable(e) && k <= |e.name| && k <= |oname| && e.name[..k] == oname[..k]
    requires k == |e.name| || k == |oname| || e.name[k] != oname[k]
    ensures var d := (e.ea - prev) % TWO_32;
            EncEntry(prev, oname, e) ==
            PackEa(if d < 0x8000_0000 then d else TWO_32 - d) + [if d < 0x8000_0000 then 0x00 else 0x01]
            + PackDd(k) + e.name[k..] + [0x00]
  {
    hide PackEa;
    hide PackDd;
    hide FlagWord;
    hide Shared;
    SharedOnce(e.name, oname, k);
    SignBytes(Negative(prev, e.ea));
  }

  lemma SignBytes(negative: bool)
    ensures PackDd(FlagWord(negative)) == [if negative then 0x01 else 0x00]
  {
  }

  lemma SharedOnce(a: Text, b: Text, k: nat)
    requires k <= |a| && k <= |b| && a[..k] == b[..k] && (k == |a| || k == |b| || a[k] != b[k])
    ensures Shared(a, b) == k
  {
    forall j | 0 <= j < k ensures a[j] == b[j] { assert a[..k][j] == b[..k][j]; }
    forall j | 0 <= j < Shared(a, b) ensures a[j] == b[j] { assert a[..Shared(a, b)][j] == b[..Shared(a, b)][j]; }
  }

  // ---------------------------------------------------------------- packets

  // The body of a packet that carries es: full, unless the list ends with it.
  ghost predicate IsPacket(body: seq<byte>, es: seq<Entry>) {
    && AllSendable(es) && 0 < |es| < 0x8000_0000
    && body == PackDd(|es|) + EncEntries(0, [], es)
    && |EncEntries(0, [], es[..|es| - 1])| <= SZPACKET
  }

  ghost predicate IsFull(es: seq<Entry>) {
    AllSendable(es) && |EncEntries(0, [], es)| > SZPACKET
  }

  function Flatten(slices: seq<seq<Entry>>): seq<Entry>
    decreases |slices|
  {
    if slices == [] then [] else slices[0] + Flatten(slices[1..])
  }

  /** A packet decodes on its own to the entries it carries. */
  lemma PacketRoundTrip(body: seq<byte>, es: seq<Entry>)
    requires IsPacket(body, es)
    ensures DecPacket(body) == Got(es, |body|)
  {
    hide UnpackDd;
    hide PackDd;
    hide EncEntries;
    hide DecEntries;
    var head := PackDd(|es|);
    assert body[0..|body|] == body;
    DdRead(Client, body, 0, |es|, EncEntries(0, [], es));
    EntriesRoundTrip(body, |head|, 0, [], es);
  }

  // What the client makes of a list of packets.
  function DecPackets(bodies: seq<seq<byte>>): Option<seq<Entry>>
    decreases |bodies|
  {
    if bodies == [] then Some([])
    else
      var first, rest := DecPacket(bodies[0]), DecPackets(bodies[1..]);
      if first.Got? && first.pos == |bodies[0]| && rest.Some? then Some(first.value + rest.value) else None
  }

  lemma {:induction false} PacketsRoundTrip(bodies: seq<seq<byte>>, slices: seq<seq<Entry>>)
    requires AllPackets(bodies, slices)
    ensures DecPackets(bodies) == Some(Flatten(slices))
    decreases |bodies|
  {
    hide DecPacket;
    hide IsPacket;
    if bodies != [] {
      PacketRoundTrip(bodies[0], slices[0]);
      PacketsRoundTrip(bodies[1..], slices[1..]);
    }
  }

  // ---------------------------------------------------------------- sending

  lemma {:induction false} EncEntriesSnoc(prev: word, oname: Text, es: seq<Entry>, e: Entry)
    requires AllSendable(es) && Sendable(e)
    ensures AllSendable(es + [e])
    ensures EncEntries(prev, oname, es + [e])
            == EncEntries(prev, oname, es) + (if es == [] then EncEntry(prev, oname, e)
                                              else EncEntry(es[|es| - 1].ea, es[|es| - 1].name, e))
    decreases |es|
  {
    hide EncEntry;
    if es == [] {
      assert [] + [e] == [e] && [e][1..] == [];
    } else {
      assert (es + [e])[0] == es[0] && (es + [e])[1..] == es[1..] + [e];
      EncEntriesSnoc(es[0].ea, es[0].name, es[1..], e);
    }
  }

  // Join the two arrays the caller passes.
  function Zip(addrs: seq<word>, names: seq<Text>): (es: seq<Entry>)
    requires |addrs| == |names|
    ensures |es| == |addrs| && forall i :: 0 <= i < |es| ==> es[i] == Entry(addrs[i], names[i])
  {
    seq(|addrs|, i requires 0 <= i < |addrs| => Entry(addrs[i], names[i]))
  }

  predicate ShortNames(names: seq<Text>) {
    forall i :: 0 <= i < |names| ==> |names[i]| < 0x8000_0000
  }

  // The scan for a repeated prefix.
  method CommonPrefix(nptr: Text, optr: Text) returns (len: nat)
    ensures len == Shared(nptr, optr)
  {
    len := 0;
    while len < |nptr| && len < |optr| && nptr[len] == optr[len]
      invariant len <= |nptr| && len <= |optr| && nptr[..len] == optr[..len]
    {
      assert nptr[..len + 1] == nptr[..len] + [nptr[len]] && optr[..len + 1] == optr[..len] + [optr[len]];
      len := len + 1;
    }
    SharedUnique(nptr, optr, len, Shared(nptr, optr));
  }

  lemma SharedUnique(a: Text, b: Text, k: nat, l: nat)
    requires k <= |a| && k <= |b| && a[..k] == b[..k] && (k < |a| && k < |b| ==> a[k] != b[k])
    requires l <= |a| && l <= |b| && a[..l] == b[..l] && (l < |a| && l < |b| ==> a[l] != b[l])
    ensures k == l
  {
    forall j | 0 <= j < k ensures a[j] == b[j] { assert a[..k][j] == b[..k][j]; }
    forall j | 0 <= j < l ensures a[j] == b[j] { assert a[..l][j] == b[..l][j]; }
  }

  method AppendEntry(buf: seq<byte>, prev: word, optr: Text, ea: word, name: Text) returns (r: seq<byte>)
    requires |name| < 0x8000_0000
    ensures r == buf + EncEntry(prev, optr, Entry(ea, name))
  {
    hide PackEa;
    hide PackDd;
    var diff := ea - prev;
    if diff >= 0x8000_0000 { diff := diff - TWO_32; } else if diff < -0x8000_0000 { diff := diff + TWO_32; }
    var neg := diff < 0;
    if neg { diff := -diff; }
    SignedDelta(prev, ea, diff, neg);
    var len := CommonPrefix(name, optr);
    r := buf + PackEa(diff) + PackDd(FlagWord(neg)) + PackDd(len) + PackStr(name[len..]);
  }

  // The signed 32-bit difference is the sign and magnitude of the delta.
  lemma SignedDelta(prev: word, ea: word, diff: int, neg: bool)
    requires 0 <= diff <= 0x8000_0000 && (diff == 0x8000_0000 ==> neg) && (diff == 0 ==> !neg)
    requires (ea - prev - if neg then -diff else diff) in {0, TWO_32, -TWO_32}
    ensures diff == Magnitude(prev, ea) && neg == Negative(prev, ea)
  {
    var d := if neg then -diff else diff;
    if neg {
      assert Delta(prev, ea) == TWO_32 - diff;
    } else {
      assert Delta(prev, ea) == diff;
    }
  }

  // The inner loop: one packet's entries, at least one.
  method FillPacket(addrs: seq<word>, names: seq<Text>) returns (i: nat, buf: seq<byte>)
    requires 0 < |addrs| == |names| && ShortNames(names)
    ensures 0 < i <= |addrs|
    ensures var es := Zip(addrs, names)[..i];
            AllSendable(es) && buf == EncEntries(0, [], es)
            && |EncEntries(0, [], es[..i - 1])| <= SZPACKET
            && (i < |addrs| ==> |buf| > SZPACKET)
  {
    hide EncEntry;
    var prev: word, optr: Text := 0, [];
    i, buf := 0, [];
    ghost var all := Zip(addrs, names);
    while i < |addrs|
      invariant i <= |addrs| && AllSendable(all) && AllSendable(all[..i])
      invariant buf == EncEntries(0, [], all[..i]) && |buf| <= SZPACKET
      invariant i > 0 ==> AllSendable(all[..i - 1]) && |EncEntries(0, [], all[..i - 1])| <= SZPACKET
      invariant if i == 0 then prev == 0 && optr == [] else prev == addrs[i - 1] && optr == names[i - 1]
    {
      EncEntriesSnoc(0, [], all[..i], all[i]);
      assert all[..i + 1] == all[..i] + [all[i]];
      buf := AppendEntry(buf, prev, optr, addrs[i], names[i]);
      prev, optr := addrs[i], names[i];
      i := i + 1;
      if |buf| > SZPACKET { break; }
    }
    assert all[..i][..i - 1] == all[..i - 1];
  }

  ghost predicate AllPackets(packets: seq<seq<byte>>, slices: seq<seq<Entry>>) {
    |packets| == |slices| && forall k :: 0 <= k < |packets| ==> IsPacket(packets[k], slices[k])
  }

  ghost predicate FullUpTo(slices: seq<seq<Entry>>, n: int) {
    forall k :: 0 <= k < n && k < |slices| ==> IsFull(slices[k])
  }

  // The client answers a packet with the number of names it took.
  predicate Acknowledged(replies: seq<int>, slices: seq<seq<Entry>>) {
    |replies| >= |slices| && forall k :: 0 <= k < |slices| ==> replies[k] == |slices[k]|
  }

  lemma PacketsSnoc(packets: seq<seq<byte>>, slices: seq<seq<Entry>>, body: seq<byte>, es: seq<Entry>)
    requires AllPackets(packets, slices) && IsPacket(body, es)
    ensures AllPackets(packets + [body], slices + [es])
  {
    hide IsPacket;
  }

  lemma FullSnoc(slices: seq<seq<Entry>>, es: seq<Entry>)
    requires FullUpTo(slices, |slices|)
    ensures FullUpTo(slices + [es], |slices|)
    ensures IsFull(es) ==> FullUpTo(slices + [es], |slices| + 1)
  {
    hide IsFull;
  }

  lemma AcknowledgedSnoc(replies: seq<int>, slices: seq<seq<Entry>>, es: seq<Entry>)
    ensures Acknowledged(replies, slices + [es]) <==>
            (Acknowledged(replies, slices) && |replies| > |slices| && replies[|slices|] == |es|)
  {
    assert forall k :: 0 <= k < |slices| ==> (slices + [es])[k] == slices[k];
    assert (slices + [es])[|slices|] == es;
  }

  // One packet: the count and the entries.
  method NextPacket(addrs: seq<word>, names: seq<Text>) returns (i: nat, body: seq<byte>, ghost es: seq<Entry>)
    requires 0 < |addrs| == |names| < 0x8000_0000 && ShortNames(names)
    ensures 0 < i <= |addrs| && |es| == i && IsPacket(body, es) && (i < |addrs| ==> IsFull(es))
    ensures Zip(addrs, names) == es + Zip(addrs[i..], names[i..]) && ShortNames(names[i..])
  {
    hide IsPacket;
    hide IsFull;
    var buf;
    i, buf := FillPacket(addrs, names);
    es := Zip(addrs, names)[..i];
    ZipSplit(addrs, names, i);
    MakePacket(es, buf);
    body := PackDd(i) + buf;
  }

  // The packets carry the slices, which are the entries in order from the first on: the
  // client recovers them, and all but the last packet are full.  ok means that all were
  // sent and acknowledged.
  ghost predicate Delivers(packets: seq<seq<byte>>, slices: seq<seq<Entry>>, es: seq<Entry>, replies: seq<int>,
                           ok: bool)
  {
    && AllPackets(packets, slices) && FullUpTo(slices, |slices| - 1)
    && DecPackets(packets) == Some(Flatten(slices)) && Flatten(slices) <= es
    && (ok <==> Flatten(slices) == es && Acknowledged(replies, slices))
  }

  // replies are the client's answers, one for each packet; a missing one stands for a
  // broken connection.
  method SendDebugNames(addrs0: seq<word>, names0: seq<Text>, replies: seq<int>)
      returns (ok: bool, packets: seq<seq<byte>>)
    requires |addrs0| == |names0| < 0x8000_0000 && ShortNames(names0)
    ensures exists slices :: Delivers(packets, slices, Zip(addrs0, names0), replies, ok)
  {
    hide IsPacket;
    hide IsFull;
    hide EncEntries;
    hide PackDd;
    hide AllPackets;
    hide FullUpTo;
    hide Acknowledged;
    hide Flatten;
    hide DecPackets;
    hide ShortNames;
    hide Zip;
    var addrs, names, qty := addrs0, names0, |addrs0|;
    ghost var slices: seq<seq<Entry>> := [];
    packets := [];
    NoneYet(replies);
    while qty > 0
      invariant qty == |addrs| == |names| < 0x8000_0000 && ShortNames(names)
      invariant Zip(addrs0, names0) == Flatten(slices) + Zip(addrs, names)
      invariant AllPackets(packets, slices) && |packets| == |slices| && Acknowledged(replies, slices)
      invariant FullUpTo(slices, if qty > 0 then |slices| else |slices| - 1)
      decreases qty
    {
      ghost var es;
      var i, body;
      i, body, es := NextPacket(addrs, names);
      PacketsSnoc(packets, slices, body, es);
      FullSnoc(slices, es);
      AcknowledgedSnoc(replies, slices, es);
      FlattenSnoc(slices, es);
      packets, slices := packets + [body], slices + [es];
      addrs, names, qty := addrs[i..], names[i..], qty - i;
      if |replies| < |packets| || i != replies[|packets| - 1] {
        PacketsRoundTrip(packets, slices);
        ok := false;
        assert Delivers(packets, slices, Zip(addrs0, names0), replies, ok);
        return;
      }
    }
    ok := true;
    assert Zip(addrs, names) == [];
    PacketsRoundTrip(packets, slices);
    assert Delivers(packets, slices, Zip(addrs0, names0), replies, ok);
  }

  lemma NoneYet(replies: seq<int>)
    ensures AllPackets([], []) && FullUpTo([], 0) && FullUpTo([], -1) && Acknowledged(replies, []) && Flatten([]) == []
  {
  }

  lemma MakePacket(es: seq<Entry>, buf: seq<byte>)
    requires AllSendable(es) && 0 < |es| < 0x8000_0000 && buf == EncEntries(0, [], es)
    requires |EncEntries(0, [], es[..|es| - 1])| <= SZPACKET
    ensures IsPacket(PackDd(|es|) + buf, es) && (|buf| > SZPACKET ==> IsFull(es))
  {
  }

  lemma ZipSplit(addrs: seq<word>, names: seq<Text>, i: nat)
    requires |addrs| == |names| && i <= |addrs|
    ensures Zip(addrs, names) == Zip(addrs, names)[..i] + Zip(addrs[i..], names[i..])
  {
  }

  lemma {:induction false} FlattenSnoc(slices: seq<seq<Entry>>, es: seq<Entry>)
    ensures Flatten(slices + [es]) == Flatten(slices) + es
    decreases |slices|
  {
    if slices == [] {
      assert ([] + [es])[1..] == [];
    } else {
      assert (slices + [es])[1..] == slices[1..] + [es];
      FlattenSnoc(slices[1..], es);
    }
  }
}
