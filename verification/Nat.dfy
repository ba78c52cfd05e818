// NAT detection: two STUN-style probes from the port that the device is about to listen on.
module Nat {
  import opened Wrappers
  import opened Net
  import opened Protocol
  import opened Postcard
  import opened Wire

  const BUFFER := 1024

  // What a buffer holds after a datagram was received into it: the rest keeps its old bytes, and
  // what does not fit is lost.
  function Overwritten(buf: Bytes, datagram: Bytes): (r: Bytes)
    ensures |r| == |buf|
  {
    if |datagram| <= |buf| then datagram + buf[|datagram|..] else datagram[..|buf|]
  }

  function StunFrame(port: uint16): Bytes { MAGIC + VERSION + EncStunRequest(port) }

  function Observed(stated: uint16, observed: uint16): StunResult {
    if observed == stated then SamePort else DifferentPort(observed)
  }

  // The server's reply to what its buffer holds, sent from the observed port.
  function StunReply(buf: Bytes, observed: uint16): Option<Bytes>
    requires |buf| >= 4
  {
    if buf[..3] != MAGIC || buf[3..4] != VERSION then None
    else
      match DecStunRequest(buf[4..])
      case Bad => None
      case Good(port, _) => Some(EncStunResponse(Observed(port, observed)))
  }

  // The server's receive loop keeps one buffer for all datagrams.
  class StunServer {
    var buf: array<uint8>

    constructor ()
      ensures fresh(buf) && buf.Length == BUFFER && buf[..] == Zeros(BUFFER)
    {
      buf := new uint8[BUFFER](_ => 0);
      new;
      assert buf[..] == Zeros(BUFFER);
    }

    method Receive(datagram: Bytes, from: uint16) returns (reply: Option<Bytes>)
      requires buf.Length == BUFFER
      modifies buf
      ensures buf[..] == Overwritten(old(buf[..]), datagram)
      ensures reply == StunReply(buf[..], from)
    {
      var n := if |datagram| <= buf.Length then |datagram| else buf.Length;
      for i := 0 to n
        invariant buf[..i] == datagram[..i]
        invariant buf[n..] == old(buf[..])[n..]
      {
        buf[i] := datagram[i];
      }
      assert buf[..] == buf[..n] + buf[n..];
      if buf[..3] != MAGIC || buf[3..4] != VERSION {
        return None;
      }
      match DecStunRequest(buf[4..]) {
        case Bad => return None;
        case Good(port, _) => return Some(EncStunResponse(Observed(port, from)));
      }
    }
  }

  // The client decodes a zeroed buffer that the reply was received into.
  function ParseStunReply(datagram: Bytes): Option<StunResult> {
    match DecStunResponse(Overwritten(Zeros(BUFFER), datagram))
    case Bad => None
    case Good(r, _) => Some(r)
  }

  lemma VarintFits(v: uint16)
    ensures |EncVarint(v)| <= 3
  {
    if v >= 0x80 {
      var w := v / 0x80;
      assert |EncVarint(v)| == 1 + |EncVarint(w)|;
      if w >= 0x80 {
        assert |EncVarint(w)| == 1 + |EncVarint(w / 0x80)|;
        assert w / 0x80 < 0x80;
      }
    }
  }

  lemma StunFrameFits(port: uint16)
    ensures 5 <= |StunFrame(port)| <= 7
  {
    VarintFits(port);
  }

  lemma StunResponseFits(r: StunResult)
    ensures |EncStunResponse(r)| <= 4
  {
    match r
    case SamePort =>
    case DifferentPort(p) => VarintFits(p);
  }

  lemma OverwrittenAt(buf: Bytes, datagram: Bytes, i: nat)
    requires i < |buf|
    ensures Overwritten(buf, datagram)[i] == if i < |datagram| then datagram[i] else buf[i]
  {
  }

  lemma RequestIsAnswered(before: Bytes, port: uint16, observed: uint16)
    requires |before| == BUFFER
    ensures StunReply(Overwritten(before, StunFrame(port)), observed) == Some(EncStunResponse(Observed(port, observed)))
  {
    StunFrameFits(port);
    var f := StunFrame(port);
    var buf := Overwritten(before, f);
    assert buf[..3] == MAGIC && buf[3..4] == VERSION;
    assert buf[4..] == EncStunRequest(port) + before[|f|..];
    StunRequestRoundTrip(port, before[|f|..]);
  }

  // A request is answered whatever the buffer held before, and the client reads from the
  // answer whether its port was changed on the way, and to what.
  lemma ProbeTellsObservedPort(before: Bytes, port: uint16, observed: uint16)
    requires |before| == BUFFER
    ensures var reply := StunReply(Overwritten(before, StunFrame(port)), observed);
            reply.Some? && ParseStunReply(reply.value) == Some(Observed(port, observed))
  {
    RequestIsAnswered(before, port, observed);
    var r := Observed(port, observed);
    StunResponseFits(r);
    StunResponseRoundTrip(r, Zeros(BUFFER)[|EncStunResponse(r)|..]);
  }

  // The shortest datagram that old bytes complete: an empty one is answered as if the last request had been
  // sent again from the new port.
  lemma EmptyDatagramRepeatsLastRequest(before: Bytes, port: uint16, first: uint16, second: uint16)
    requires |before| == BUFFER
    ensures var buf := Overwritten(before, StunFrame(port));
            StunReply(Overwritten(buf, []), second) == Some(EncStunResponse(Observed(port, second)))
  {
    var buf := Overwritten(before, StunFrame(port));
    assert Overwritten(buf, []) == buf;
    RequestIsAnswered(before, port, second);
  }

  const HEADER: Bytes := MAGIC + VERSION

  // A wrong byte where the header should be.
  predicate WrongHeader(d: Bytes) {
    exists i :: 0 <= i < 4 && i < |d| && d[i] != HEADER[i]
  }

  // The port's varint has its last byte, or its third, in the datagram.
  predicate HoldsPort(d: Bytes) {
    |d| >= 5 && (d[4] < 0x80 || (|d| >= 6 && (d[5] < 0x80 || |d| >= 7)))
  }

  // Decoding a port looks at three bytes at most, and not beyond the first one below 0x80.
  lemma PortLooksAt(b1: Bytes, b2: Bytes, n: nat)
    requires |b1| >= 3 && |b2| >= 3 && 1 <= n <= 3 && b1[..n] == b2[..n]
    requires n == 3 || b1[n - 1] < 0x80
    ensures DecStunRequest(b1).Good? == DecStunRequest(b2).Good?
    ensures DecStunRequest(b1).Good? ==> DecStunRequest(b1).value == DecStunRequest(b2).value
  {
    assert forall i :: 0 <= i < n ==> b1[..n][i] == b1[i] && b2[..n][i] == b2[i];
    DecodesPort(b1);
    DecodesPort(b2);
    assert b1[0] == b2[0];
    if n == 2 {
      assert b1[1] == b2[1];
    } else if n == 3 {
      assert b1[1] == b2[1] && b1[2] == b2[2];
    }
  }

  // What three bytes say of a port.
  function PortIn(b: Bytes): Option<int>
    requires |b| >= 3
  {
    var x: int, y: int, z: int := b[0], b[1], b[2];
    if x < 0x80 then Some(x)
    else if y < 0x80 then Some(x - 0x80 + 0x80 * y)
    else if z <= 3 then Some(x - 0x80 + 0x80 * (y - 0x80 + 0x80 * z))
    else None
  }

  lemma DecodesPort(b: Bytes)
    requires |b| >= 3
    ensures match DecStunRequest(b)
            case Bad => PortIn(b) == None
            case Good(port, _) => PortIn(b) == Some(port)
  {
    var c, d := b[1..], b[2..];
    assert c[1..] == d;
    var last := DecVarint(d, 1, 3);
    assert last == if d[0] > 3 then Bad else Good(d[0], d[1..]) by {
      assert DecVarint(d[1..], 0, 3) == Bad;
    }
    var middle := DecVarint(c, 2, 3);
    assert middle == if c[0] < 0x80 then Good(c[0], d) else if last.Bad? then Bad
        else Good(c[0] - 0x80 + 0x80 * last.value, last.rest);
    assert DecVarint(b, 3, 3) ==
           if b[0] < 0x80 then Good(b[0], c) else if middle.Bad? then Bad
               else Good(b[0] - 0x80 + 0x80 * middle.value, middle.rest);
  }

  // The buffers that the reply to d could depend on.
  function Completing(): (b: Bytes)
    ensures |b| == BUFFER
  {
    HEADER + Zeros(BUFFER - 4)
  }

  function Spoiling(): (b: Bytes)
    ensures |b| == BUFFER
  {
    seq(BUFFER, _ => 0xFF)
  }

  lemma SelfContained(before: Bytes, other: Bytes, d: Bytes, observed: uint16)
    requires |before| == |other| == BUFFER && (WrongHeader(d) || HoldsPort(d))
    ensures StunReply(Overwritten(before, d), observed) == StunReply(Overwritten(other, d), observed)
  {
    var x, y := Overwritten(before, d), Overwritten(other, d);
    assert forall i :: 0 <= i < |d| && i < BUFFER ==> x[i] == y[i] == d[i];
    HeaderCheck(x);
    HeaderCheck(y);
    if !WrongHeader(d) {
      var n := if d[4] < 0x80 then 1 else if d[5] < 0x80 then 2 else 3;
      assert x[4..][..n] == y[4..][..n];
      PortLooksAt(x[4..], y[4..], n);
    }
  }

  lemma HeaderCheck(buf: Bytes)
    requires |buf| >= 4
    ensures buf[..3] == MAGIC && buf[3..4] == VERSION <==> forall i :: 0 <= i < 4 ==> buf[i] == HEADER[i]
  {
    var magic, version := buf[..3], buf[3..4];
    assert magic[0] == buf[0] && magic[1] == buf[1] && magic[2] == buf[2] && version[0] == buf[3];
    assert magic == [buf[0], buf[1], buf[2]] && version == [buf[3]];
    assert forall i :: 0 <= i < 4 ==> HEADER[i] == [0xFD, 0xAC, 0xAF, 0x1][i];
  }

  lemma OldBytesDecide(d: Bytes, observed: uint16)
    requires !WrongHeader(d) && !HoldsPort(d)
    ensures StunReply(Overwritten(Completing(), d), observed).Some?
    ensures StunReply(Overwritten(Spoiling(), d), observed).None?
  {
    var x, y := Overwritten(Completing(), d), Overwritten(Spoiling(), d);
    assert |d| < 7;
    assert forall i :: 0 <= i < BUFFER ==> x[i] == if i < |d| then d[i] else Completing()[i];
    assert forall i :: 0 <= i < BUFFER ==> y[i] == if i < |d| then d[i] else 0xFF;
    HeaderCheck(x);
    HeaderCheck(y);
    DecodesPort(x[4..]);
    DecodesPort(y[4..]);
    assert HEADER[3] == 1;
  }

  // Old bytes stay in the buffer, so the reply to a datagram can depend on the ones before it. It
  // does not, whatever the buffer held, exactly when the datagram has a wrong byte in its header or
  // holds its port's varint to the end; every other datagram is answered after some datagrams and
  // ignored after others.
  lemma ReplyDependsOnDatagramAlone(d: Bytes, observed: uint16)
    ensures (forall before: Bytes, other: Bytes :: |before| == |other| == BUFFER ==>
               StunReply(Overwritten(before, d), observed) == StunReply(Overwritten(other, d), observed))
            <==> WrongHeader(d) || HoldsPort(d)
  {
    if WrongHeader(d) || HoldsPort(d) {
      forall before: Bytes, other: Bytes | |before| == |other| == BUFFER
        ensures StunReply(Overwritten(before, d), observed) == StunReply(Overwritten(other, d), observed)
      {
        SelfContained(before, other, d, observed);
      }
    } else {
      OldBytesDecide(d, observed);
    }
  }

  // ---------- Classification ----------

  datatype NatKind = Easy | FixedPortMapping(listenPort: uint16, observedPort: uint16) | Hard

  // None is an error: a probe failed, or the results do not go together.
  function DetectKind(port: uint16, r1: Option<StunResult>, r2: Option<StunResult>): Option<NatKind> {
    if r1.None? || r2.None? then None
    else
      match (r1.value, r2.value)
      case (SamePort, SamePort) => Some(Easy)
      case (DifferentPort(p1), DifferentPort(p2)) => if p1 == p2 then Some(FixedPortMapping(port, p1)) else Some(Hard)
      case _ => None
  }

  // The port the client announces after a detection.
  function PortToAnnounce(kind: NatKind, port: uint16): uint16 {
    match kind
    case Easy => port
    case FixedPortMapping(_, observed) => observed
    case Hard => port
  }

  // When both probes get through, the detection gives a port that works exactly when the NAT
  // maps the port alike towards both servers (endpoint-independent mapping, section 4.1 of
  // RFC 4787), and that port is then the mapped one. Otherwise it reports a hard NAT, or an
  // error when one of the mappings happens to keep the port.
  lemma DetectionMatchesMapping(port: uint16, o1: uint16, o2: uint16)
    ensures var kind := DetectKind(port, Some(Observed(port, o1)), Some(Observed(port, o2)));
            && (o1 == o2 <==> kind.Some? && kind.value != Hard)
            && (o1 == o2 ==> PortToAnnounce(kind.value, port) == o1)
            && (kind == None <==> o1 != o2 && (o1 == port || o2 == port))
            && (kind == Some(Hard) <==> o1 != o2 && o1 != port && o2 != port)
            && (kind == Some(Hard) ==> PortToAnnounce(kind.value, port) == port)
            && (kind == Some(Easy) <==> o1 == port && o2 == port)
            && (kind == Some(FixedPortMapping(port, o1)) <==> o1 == o2 && o1 != port)
  {
  }

  // ---------- Detection over the wire ----------

  // One probe: the request, received by a server into a buffer that held before, from the port that
  // the NAT maps the local one to; and the server's reply, received by the client. Either can be lost.
  function Probe(before: Bytes, port: uint16, mapped: uint16, lost: bool): Option<StunResult>
    requires |before| == BUFFER
  {
    if lost then None
    else
      match StunReply(Overwritten(before, StunFrame(port)), mapped)
      case None => None
      case Some(reply) => ParseStunReply(reply)
  }

  // The detection's result comes from a probe to each of two servers, towards which the NAT maps the
  // port to o1 and to o2.
  ghost predicate Probed(port: uint16, o1: uint16, o2: uint16, kind: Option<NatKind>) {
    exists before1: Bytes, before2: Bytes, lost1, lost2 ::
      && |before1| == |before2| == BUFFER
      && kind == DetectKind(port, Probe(before1, port, o1, lost1), Probe(before2, port, o2, lost2))
  }

  // Whatever the servers had received before: unless a probe is lost, the detection gives a port
  // exactly when both mappings are alike, and that port is then the mapped one; behind a hard NAT the
  // port announced is the local one.
  lemma ProbedMatchesMapping(port: uint16, o1: uint16, o2: uint16, kind: Option<NatKind>)
    requires Probed(port, o1, o2, kind)
    ensures kind == None || kind == DetectKind(port, Some(Observed(port, o1)), Some(Observed(port, o2)))
    ensures kind.Some? ==> (kind.value != Hard <==> o1 == o2)
    ensures kind.Some? ==> PortToAnnounce(kind.value, port) == if o1 == o2 then o1 else port
  {
    var before1: Bytes, before2: Bytes, lost1, lost2 :|
      && |before1| == |before2| == BUFFER
      && kind == DetectKind(port, Probe(before1, port, o1, lost1), Probe(before2, port, o2, lost2));
    ProbeTellsObservedPort(before1, port, o1);
    ProbeTellsObservedPort(before2, port, o2);
    DetectionMatchesMapping(port, o1, o2);
  }

}
