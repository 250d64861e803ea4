/** Packets on the byte stream: the header with the payload length in network order, the
    send loop, the receive loop with its polling, and the parser for incoming packets.
    However the stream is cut into pieces, the packets received are the packets sent. */
module Framing {
  import opened DebugEvents

  const HEADER: nat := 5

  // swap32, with its shifts and masks written as arithmetic.
  function Swap32(x: word): word {
    x / 0x100_0000 + x % 256 * 0x100_0000 + x / 0x1_0000 % 256 * 256 + x / 256 % 256 * 0x1_0000
  }

  // A 32-bit number in the memory of a little-endian machine.
  function Stored(x: word): (s: seq<byte>)
    ensures |s| == 4
  {
    [x % 256, x / 256 % 256, x / 0x1_0000 % 256, x / 0x100_0000]
  }

  function Loaded(s: seq<byte>): word
    requires |s| == 4
  {
    var a: int, b: int, c: int, d: int := s[0], s[1], s[2], s[3];
    a + b * 256 + c * 0x1_0000 + d * 0x100_0000
  }

  lemma LoadStored(x: word)
    ensures Loaded(Stored(x)) == x
  {
    var y := x / 256;
    var z := y / 256;
    assert x == y * 256 + x % 256 && y == z * 256 + y % 256 && z == z / 256 * 256 + z % 256;
    assert z == x / 0x1_0000 && z / 256 == x / 0x100_0000;
  }

  // The bytes of a swapped number, as numbers.
  lemma FromDigits(a: byte, b: byte, c: byte, d: byte)
    ensures var x: word := a + b * 256 + c * 0x1_0000 + d * 0x100_0000;
            x % 256 == a && x / 256 % 256 == b && x / 0x1_0000 % 256 == c && x / 0x100_0000 == d
  {
    var x: word := a + b * 256 + c * 0x1_0000 + d * 0x100_0000;
    assert x / 256 == b + c * 256 + d * 0x1_0000;
    assert x / 0x1_0000 == c + d * 256;
  }

  lemma SwapDigits(a: byte, b: byte, c: byte, d: byte)
    ensures Swap32(a + b * 256 + c * 0x1_0000 + d * 0x100_0000) == d + c * 256 + b * 0x1_0000 + a * 0x100_0000
  {
    FromDigits(a, b, c, d);
  }

  /** Swapping the bytes twice changes nothing. */
  lemma SwapInvolution(x: word)
    ensures Swap32(Swap32(x)) == x
  {
    hide Swap32;
    var a, b, c, d := x % 256, x / 256 % 256, x / 0x1_0000 % 256, x / 0x100_0000;
    LoadStored(x);
    SwapDigits(a, b, c, d);
    SwapDigits(d, c, b, a);
  }

  datatype Packet = Packet(code: byte, payload: seq<byte>)

  // A packet as it is sent.
  function Frame(p: Packet): (s: seq<byte>)
    requires |p.payload| < TWO_32
    ensures |s| == HEADER + |p.payload|
  {
    Stored(Swap32(|p.payload|)) + [p.code] + p.payload
  }

  lemma StoredDigits(a: byte, b: byte, c: byte, d: byte)
    ensures Stored(a + b * 256 + c * 0x1_0000 + d * 0x100_0000) == [a, b, c, d]
  {
    FromDigits(a, b, c, d);
  }

  lemma DigitsOf(x: word)
    ensures x == x % 256 + x / 256 % 256 * 256 + x / 0x1_0000 % 256 * 0x1_0000 + x / 0x100_0000 * 0x100_0000
  {
    LoadStored(x);
  }

  lemma SwapStored(x: word)
    ensures Stored(Swap32(x)) == [x / 0x100_0000, x / 0x1_0000 % 256, x / 256 % 256, x % 256]
  {
    hide Swap32;
    hide Stored;
    var a, b, c, d := x % 256, x / 256 % 256, x / 0x1_0000 % 256, x / 0x100_0000;
    DigitsOf(x);
    SwapDigits(a, b, c, d);
    StoredDigits(d, c, b, a);
  }

  /** The bytes of a packet: its length, highest byte first, its code and its payload. */
  lemma FrameBytes(p: Packet)
    requires |p.payload| < TWO_32
    ensures var n := |p.payload|;
            Frame(p) == [n / 0x100_0000, n / 0x1_0000 % 256, n / 256 % 256, n % 256, p.code] + p.payload
  {
    hide Swap32;
    hide Stored;
    SwapStored(|p.payload|);
  }

  // What recv_request makes of the stream: a packet, or nothing when the length is
  // negative, when adding the header overflows, or when the stream ends.
  function ParseOne(s: seq<byte>): (Option<Packet>, seq<byte>) {
    if |s| < HEADER then (None, [])
    else
      var len := Swap32(Loaded(s[..4]));
      if len + HEADER >= 0x8000_0000 then (None, s[HEADER..])
      else if |s| < HEADER + len then (None, [])
      else (Some(Packet(s[4], s[HEADER..HEADER + len])), s[HEADER + len..])
  }

  // Payloads a packet can carry.
  predicate Carries(p: Packet) {
    |p.payload| + HEADER < 0x8000_0000
  }

  /** A framed packet is parsed back whatever follows, exactly when its length fits. */
  lemma ParseFrameIff(p: Packet, rest: seq<byte>)
    requires |p.payload| < TWO_32
    ensures ParseOne(Frame(p) + rest) == (Some(p), rest) <==> Carries(p)
  {
    hide Swap32;
    hide Loaded;
    hide Stored;
    var s := Frame(p) + rest;
    var n := |p.payload|;
    assert s[..4] == Stored(Swap32(n));
    LoadStored(Swap32(n));
    SwapInvolution(n);
    assert s[HEADER..HEADER + n] == p.payload && s[HEADER + n..] == rest;
  }

  function Stream(ps: seq<Packet>): seq<byte>
    requires forall i :: 0 <= i < |ps| ==> Carries(ps[i])
    decreases |ps|
  {
    if ps == [] then []
    else
      assert Carries(ps[0]);
      Frame(ps[0]) + Stream(ps[1..])
  }

  // The packets received until the first that is not there.
  function Session(s: seq<byte>): seq<Packet>
    decreases |s|
  {
    var (p, rest) := ParseOne(s);
    if p.None? || |rest| >= |s| then [] else [p.value] + Session(rest)
  }

  lemma SessionStep(s: seq<byte>)
    ensures var (p, rest) := ParseOne(s);
            Session(s) == if p.None? then [] else [p.value] + Session(rest)
    ensures ParseOne(s).0.Some? ==> |ParseOne(s).1| < |s|
  {
  }

  /** A session receives exactly the packets that were framed. */
  lemma {:induction false} SessionRoundTrip(ps: seq<Packet>)
    requires forall i :: 0 <= i < |ps| ==> Carries(ps[i])
    ensures Session(Stream(ps)) == ps
    decreases |ps|
  {
    hide ParseOne;
    hide Frame;
    SessionStep(Stream(ps));
    if ps == [] {
      assert ParseOne([]).0 == None by { ParseNothing(); }
    } else {
      ParseFrameIff(ps[0], Stream(ps[1..]));
      SessionRoundTrip(ps[1..]);
      assert [ps[0]] + ps[1..] == ps;
    }
  }

  lemma ParseNothing()
    ensures ParseOne([]).0 == None
  {
  }

  // ---------------------------------------------------------------- the engine

  // What a call into the stream layer or the polling of events brings.  sent is what
  // poll_events writes to the peer, pollAfter its new polling flag.
  datatype Step =
    | Bytes(n: nat)
    | NotReady(code: int, sent: seq<byte>, pollAfter: bool)
    | Fails(error: int)

  predicate Harmless(st: Step) {
    st.Bytes? || (st.NotReady? && st.code == 0)
  }

  predicate AllHarmless(steps: seq<Step>) {
    forall i :: 0 <= i < |steps| ==> Harmless(steps[i])
  }

  // Does a failing call leave an error code behind?
  predicate Honest(steps: seq<Step>) {
    forall i :: 0 <= i < |steps| && steps[i].Fails? ==> steps[i].error != 0
  }

  // A transfer moves at least one byte and no more than asked for.
  function Moved(n: nat, left: nat): (m: nat)
    requires left > 0
    ensures 0 < m <= left
  {
    if n == 0 then 1 else if n > left then left else n
  }

  // Bytes from ptr on have been filled in: what that means for the parts of the buffer.
  lemma MoreReceived(was: seq<byte>, now: seq<byte>, at: nat, ptr: nat, n: nat, end: nat)
    requires at <= ptr && ptr + n <= end <= |was| == |now|
    requires now[..ptr] == was[..ptr] && now[ptr + n..] == was[ptr + n..]
    ensures now[..at] == was[..at] && now[end..] == was[end..]
    ensures now[at..ptr + n] == was[at..ptr] + now[ptr..ptr + n]
  {
    assert now[..at] == now[..ptr][..at] && was[..at] == was[..ptr][..at];
    assert now[end..] == now[ptr + n..][end - (ptr + n)..] && was[end..] == was[ptr + n..][end - (ptr + n)..];
    assert now[at..ptr] == now[..ptr][at..] && was[at..ptr] == was[..ptr][at..];
  }

  // What comes in next follows what has come in.
  lemma StreamSplit(s: seq<byte>, d: nat, n: nat)
    requires d + n <= |s|
    ensures s[d..][n..] == s[d + n..] && s[..d] + s[d..][..n] == s[..d + n]
  {
  }

  class Engine {
    var inbound: seq<byte>    // what the peer sends from now on
    var outbound: seq<byte>   // what was written to the peer
    var networkError: int
    var pollDebugEvents: bool
    const isServer: bool

    constructor (inbound: seq<byte>, isServer: bool)
      ensures this.inbound == inbound && outbound == [] && networkError == 0 && !pollDebugEvents
      ensures this.isServer == isServer
    {
      this.inbound, outbound, networkError, pollDebugEvents := inbound, [], 0, false;
      this.isServer := isServer;
    }

    // The send loop; code is what it returns.
    method SendAll(cmd: seq<byte>, steps: seq<Step>) returns (code: int, ghost sent: nat)
      requires networkError == 0
      modifies this
      ensures inbound == old(inbound) && pollDebugEvents == old(pollDebugEvents)
      ensures sent <= |cmd| && outbound == old(outbound) + cmd[..sent]
      ensures AllHarmless(steps) ==> code == 0
      ensures Honest(steps) && code == 0 ==> sent == |cmd| && networkError == 0
    {
      var left, ptr, i := |cmd|, 0, 0;
      while left > 0
        invariant 0 <= ptr <= |cmd| && left + ptr == |cmd| && i <= |steps|
        invariant networkError == 0 && inbound == old(inbound) && pollDebugEvents == old(pollDebugEvents)
        invariant outbound == old(outbound) + cmd[..ptr]
        decreases left, |steps| - i
      {
        var n := left;
        if i < |steps| {
          var st := steps[i];
          i := i + 1;
          if st.Fails? {
            networkError := st.error;
            return st.error, ptr;
          }
          if st.Bytes? { n := Moved(st.n, left); }
        }
        outbound := outbound + cmd[ptr..ptr + n];
        assert cmd[..ptr + n] == cmd[..ptr] + cmd[ptr..ptr + n];
        left, ptr := left - n, ptr + n;
      }
      return 0, ptr;
    }

    // finalize_packet and the send loop; s starts with room for the length and the code.
    method SendRequest(s: seq<byte>, steps: seq<Step>) returns (code: int, ghost sent: nat)
      requires HEADER <= |s| < TWO_32
      modifies this
      ensures inbound == old(inbound) && pollDebugEvents == old(pollDebugEvents)
      ensures old(networkError) != 0 ==> code == -1 && sent == 0
      ensures sent <= |s| && outbound == old(outbound) + Frame(Packet(s[4], s[HEADER..]))[..sent]
      ensures old(networkError) == 0 && AllHarmless(steps) ==> code == 0
      ensures Honest(steps) && code == 0 ==> sent == |s| && networkError == 0
    {
      hide Swap32;
      hide Stored;
      if networkError != 0 { return -1, 0; }
      var cmd := Stored(Swap32(|s| - HEADER)) + s[4..];
      assert s[4..] == [s[4]] + s[HEADER..];
      assert cmd == Frame(Packet(s[4], s[HEADER..]));
      code, sent := SendAll(cmd, steps);
    }

    // recv_all: exactly left bytes into the buffer at at, polling for events while the
    // peer is silent.  rest are the steps not used.
    method RecvAll(buf: array<byte>, at: nat, left0: nat, poll: bool, steps: seq<Step>)
      returns (code: int, rest: seq<Step>)
      requires at + left0 <= buf.Length
      modifies this, buf
      ensures buf[..at] == old(buf[..at]) && buf[at + left0..] == old(buf[at + left0..])
      ensures code == 0 ==> |old(inbound)| >= left0 && buf[at..at + left0] == old(inbound)[..left0]
                            && inbound == old(inbound)[left0..]
      ensures AllHarmless(steps) ==> AllHarmless(rest) && networkError == old(networkError)
      ensures AllHarmless(steps) && |old(inbound)| >= left0 ==> code == 0
      ensures AllHarmless(steps) && code != 0 ==> |old(inbound)| < left0 && inbound == []
    {
      var left, ptr := left0, at;
      code, rest := 0, steps;
      while left > 0
        invariant 0 <= left <= left0 && ptr + left == at + left0 && code == 0
        invariant |old(inbound)| >= ptr - at && inbound == old(inbound)[ptr - at..]
        invariant buf[..at] == old(buf[..at]) && buf[at + left0..] == old(buf[at + left0..])
        invariant buf[at..ptr] == old(inbound)[..ptr - at]
        invariant AllHarmless(steps) ==> AllHarmless(rest) && networkError == old(networkError)
        decreases left, |rest|
      {
        var st := if rest == [] then Bytes(left) else rest[0];
        rest := if rest == [] then [] else rest[1..];
        if st.NotReady? {
          if isServer && poll && pollDebugEvents {
            code := Poll(st);
            if code != 0 { return; }
          }
          continue;
        }
        if st.Fails? || inbound == [] {
          var error := if st.Fails? then st.error else 0;
          code := if error == 0 then -1 else error;
          if error != 0 { networkError := error; }
          return;
        }
        label Copy:
        var n := ReceiveSome(buf, ptr, left, st.n);
        ghost var was := old@Copy(buf[..]);
        MoreReceived(was, buf[..], at, ptr, n, at + left0);
        StreamSplit(old(inbound), ptr - at, n);
        ptr, left := ptr + n, left - n;
      }
    }

    // irs_recv: some of the bytes that have come in.
    method ReceiveSome(buf: array<byte>, ptr: nat, left: nat, want: nat) returns (n: nat)
      requires ptr + left <= buf.Length && left > 0 && inbound != []
      modifies this, buf
      ensures 0 < n <= left && n <= |old(inbound)| && inbound == old(inbound)[n..]
      ensures buf[ptr..ptr + n] == old(inbound)[..n]
      ensures buf[..ptr] == old(buf[..ptr]) && buf[ptr + n..] == old(buf[ptr + n..])
      ensures outbound == old(outbound) && networkError == old(networkError) && pollDebugEvents == old(pollDebugEvents)
    {
      n := Moved(want, left);
      if n > |inbound| { n := |inbound|; }
      forall k | 0 <= k < n { buf[ptr + k] := inbound[k]; }
      inbound := inbound[n..];
    }

    // Receive one packet: the header while polling, then the payload.
    method RecvRequest(steps: seq<Step>) returns (r: Option<Packet>, rest: seq<Step>)
      modifies this
      ensures AllHarmless(steps) ==> AllHarmless(rest) && networkError == old(networkError)
      ensures old(networkError) != 0 ==> r == None && inbound == old(inbound)
      ensures r.Some? ==> |inbound| < |old(inbound)|
      ensures AllHarmless(steps) && old(networkError) == 0 ==> (r, inbound) == ParseOne(old(inbound))
    {
      hide Swap32;
      hide Loaded;
      r, rest := None, steps;
      if networkError != 0 { return; }
      var p := new byte[HEADER];
      var code;
      code, rest := RecvAll(p, 0, HEADER, pollDebugEvents, rest);
      if code != 0 { return; }
      assert p[..4] == old(inbound)[..4] && p[4] == old(inbound)[4] by {
        assert p[0..HEADER] == old(inbound)[..HEADER];
        assert p[..4] == p[0..HEADER][..4];
        assert p[4] == p[0..HEADER][4];
      }
      var size := Swap32(Loaded(p[..4]));
      if size >= 0x8000_0000 || size + HEADER >= 0x8000_0000 { return; }
      var urp := new byte[size];
      ghost var body := inbound;
      code, rest := RecvAll(urp, 0, size, false, rest);
      if code != 0 { return; }
      ghost var all := old(inbound);
      assert urp[..] == urp[0..size] == all[HEADER..][..size] == all[HEADER..HEADER + size];
      assert all[HEADER..][size..] == all[HEADER + size..];
      r := Some(Packet(p[4], urp[..]));
    }

    // The session loop, as far as packets are concerned: receive until nothing comes.
    method ReceiveSession(steps0: seq<Step>) returns (ps: seq<Packet>)
      requires networkError == 0
      modifies this
      ensures AllHarmless(steps0) ==> ps == Session(old(inbound))
    {
      hide ParseOne;
      ps := [];
      var steps := steps0;
      ghost var goal := Session(inbound);
      while true
        invariant AllHarmless(steps0) ==> AllHarmless(steps) && networkError == 0 && ps + Session(inbound) == goal
        decreases |inbound|
      {
        ghost var before := inbound;
        SessionStep(before);
        var r;
        r, steps := RecvRequest(steps);
        if r == None {
          break;
        }
        ps := ps + [r.value];
      }
    }

    // poll_events, as far as the stream is concerned.
    method Poll(st: Step) returns (code: int)
      requires st.NotReady?
      modifies this
      ensures inbound == old(inbound) && networkError == old(networkError)
      ensures outbound == old(outbound) + st.sent && pollDebugEvents == st.pollAfter && code == st.code
    {
      outbound := outbound + st.sent;
      pollDebugEvents := st.pollAfter;
      code := st.code;
    }
  }
}
