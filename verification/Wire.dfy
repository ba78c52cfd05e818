// Frames: magic, version, little-endian length and a Postcard body, as the client writes and
// the server reads them, and back.
module Wire {
  import opened Net
  import opened Text
  import opened Protocol
  import opened Postcard

  // ---------- The length field ----------

  function EncLittleEndian(x: nat, n: nat): (b: Bytes)
    ensures |b| == n
  {
    if n == 0 then [] else [x % 0x100] + EncLittleEndian(x / 0x100, n - 1)
  }

  function DecLittleEndian(b: Bytes): nat {
    if b == [] then 0 else b[0] + 0x100 * DecLittleEndian(b[1..])
  }

  lemma {:induction false} LittleEndianRoundTrip(x: nat, n: nat)
    requires x < Pow256(n)
    ensures DecLittleEndian(EncLittleEndian(x, n)) == x
  {
    if n > 0 {
      LittleEndianRoundTrip(x / 0x100, n - 1);
      assert EncLittleEndian(x, n)[1..] == EncLittleEndian(x / 0x100, n - 1);
    }
  }

  // ---------- What is written ----------

  function Frame(body: Bytes): Bytes
  {
    MAGIC + VERSION + EncLittleEndian(|body|, 4) + body
  }

  function RequestFrame(a: Announcement): Bytes { Frame(EncAnnouncement(a)) }

  function ResponseFrame(entries: seq<(Str, Endpoint)>): Bytes { Frame(EncResponse(entries)) }

  function Zeros(n: nat): (z: Bytes)
    ensures |z| == n && forall i :: 0 <= i < n ==> z[i] == 0
  {
    seq(n, i => 0)
  }

  // ---------- What is read ----------

  datatype Unframed = ShortRead | WrongMagic | WrongVersion | Oversized | Body(body: Bytes)

  // The header checks both sides make, in their order, on the bytes that arrive before the
  // stream ends.
  function Unframe(input: Bytes): (u: Unframed)
    ensures u.Body? ==> |u.body| <= MAX_MESSAGE_SIZE
  {
    if |input| < 4 then ShortRead
    else if input[..3] != MAGIC then WrongMagic
    else if input[3..4] != VERSION then WrongVersion
    else if |input| < 8 then ShortRead
    else
      var n := DecLittleEndian(input[4..8]);
      if n > MAX_MESSAGE_SIZE then Oversized
      else if |input| < 8 + n then ShortRead
      else Body(input[8..8 + n])
  }

  // The server decodes its whole buffer, of which only the beginning was read; the rest is zero.
  function Padded(body: Bytes): Bytes
    requires |body| <= MAX_MESSAGE_SIZE
  {
    body + Zeros(MAX_MESSAGE_SIZE - |body|)
  }

  datatype Request = Malformed(why: Unframed) | Undecodable | Invalid(bad: Announcement) | Accepted(a: Announcement)

  function ParseRequest(input: Bytes): Request {
    match Unframe(input)
    case Body(body) =>
      (match DecAnnouncement(Padded(body))
       case Bad => Undecodable
       case Good(a, _) => if Valid(a) then Accepted(a) else Invalid(a))
    case why => Malformed(why)
  }

  datatype Reply = WriteError | NoReply(reason: Unframed) | BadEncoding | Received(endpoints: Response)

  // The client decodes exactly the bytes it was announced.
  function ParseResponse(input: Bytes): Reply {
    match Unframe(input)
    case Body(body) =>
      (match DecResponse(body)
       case Bad => BadEncoding
       case Good(m, _) => Received(m))
    case why => NoReply(why)
  }

  // ---------- Round trips ----------

  lemma UnframeFrame(body: Bytes, more: Bytes)
    requires |body| < 0x1_0000_0000
    ensures Unframe(Frame(body) + more) == if |body| > MAX_MESSAGE_SIZE then Oversized else Body(body)
  {
    var f := Frame(body) + more;
    OctetBounds();
    LittleEndianRoundTrip(|body|, 4);
    assert f[..3] == MAGIC && f[3..4] == VERSION;
    assert f[4..8] == EncLittleEndian(|body|, 4);
    if |body| <= MAX_MESSAGE_SIZE {
      assert f[8..8 + |body|] == body;
    }
  }

  // The server gets the client's announcement when it fits in a message, and says that it is
  // too long otherwise; nothing after the frame matters.
  lemma ServerReadsAnnouncement(a: Announcement, more: Bytes)
    requires |EncAnnouncement(a)| < 0x1_0000_0000
    ensures ParseRequest(RequestFrame(a) + more) ==
            if |EncAnnouncement(a)| > MAX_MESSAGE_SIZE then Malformed(Oversized)
            else if Valid(a) then Accepted(a) else Invalid(a)
  {
    var body := EncAnnouncement(a);
    UnframeFrame(body, more);
    if |body| <= MAX_MESSAGE_SIZE {
      AnnouncementRoundTrip(a, Zeros(MAX_MESSAGE_SIZE - |body|));
    }
  }

  // The client gets the server's answer exactly when it fits in a message.
  lemma ClientReadsResponse(entries: seq<(Str, Endpoint)>, m: Response, more: Bytes)
    requires Enumerates(entries, m) && |EncResponse(entries)| < 0x1_0000_0000
    ensures ParseResponse(ResponseFrame(entries) + more) ==
            if |EncResponse(entries)| > MAX_MESSAGE_SIZE then NoReply(Oversized) else Received(m)
  {
    var body := EncResponse(entries);
    UnframeFrame(body, more);
    if |body| <= MAX_MESSAGE_SIZE {
      ResponseRoundTrip(entries, m, []);
      assert body + [] == body;
    }
  }

  // The padding completes a body whose missing end is zero: a frame that leaves out trailing
  // zero bytes of the body reads as the full one does.
  lemma PaddingCompletes(body: Bytes, k: nat)
    requires |body| + k <= MAX_MESSAGE_SIZE
    ensures ParseRequest(Frame(body)) == ParseRequest(Frame(body + Zeros(k)))
  {
    UnframeFrame(body, []);
    UnframeFrame(body + Zeros(k), []);
    assert Frame(body) + [] == Frame(body);
    assert Frame(body + Zeros(k)) + [] == Frame(body + Zeros(k));
    assert Padded(body) == Padded(body + Zeros(k));
  }

  // ---------- Streams ----------

  // A connection: the bytes that will arrive before the other side stops, the bytes written,
  // and how many more can be written before writing fails.
  class Stream {
    var input: Bytes
    var output: Bytes
    var room: nat

    constructor (input: Bytes, room: nat)
      ensures this.input == input && output == [] && this.room == room
    {
      this.input, output, this.room := input, [], room;
    }

    method WriteAll(data: Bytes) returns (ok: bool)
      modifies `output, `room
      ensures ok == (|data| <= old(room))
      ensures ok ==> output == old(output) + data && room == old(room) - |data|
      ensures !ok ==> output == old(output) + data[..old(room)] && room == 0
    {
      ok := |data| <= room;
      var n := if ok then |data| else room;
      output, room := output + data[..n], room - n;
    }

    method ReadExact(buf: array<uint8>, n: nat) returns (ok: bool)
      requires n <= buf.Length
      modifies `input, buf
      ensures ok == (n <= |old(input)|)
      ensures ok ==> input == old(input)[n..] && buf[..n] == old(input)[..n]
      ensures !ok ==> input == []
      ensures buf[n..] == old(buf[n..])
    {
      var m := if n <= |input| then n else |input|;
      for i := 0 to m
        invariant input == old(input)
        invariant buf[..i] == input[..i]
        invariant buf[n..] == old(buf[n..])
      {
        buf[i] := input[i];
      }
      ok := n <= |input|;
      input := input[m..];
    }
  }

  // Reads the header, the length and the body into buf.
  method ReadFrame(stream: Stream, buf: array<uint8>) returns (u: Unframed)
    requires buf.Length == MAX_MESSAGE_SIZE
    modifies stream`input, buf
    ensures u == Unframe(old(stream.input))
    ensures u.Body? ==> buf[..] == u.body + old(buf[|u.body|..])
  {
    ghost var arrived := stream.input;
    var header := new uint8[4];
    var ok := stream.ReadExact(header, 4);
    if !ok {
      return ShortRead;
    }
    assert header[..] == arrived[..4];
    assert header[..3] == arrived[..3] && header[3..] == arrived[3..4];
    if header[..3] != MAGIC {
      return WrongMagic;
    }
    if header[3..] != VERSION {
      return WrongVersion;
    }
    var length := new uint8[4];
    ok := stream.ReadExact(length, 4);
    if !ok {
      return ShortRead;
    }
    assert length[..] == arrived[4..][..4] == arrived[4..8];
    var n := DecLittleEndian(length[..]);
    if n > MAX_MESSAGE_SIZE {
      return Oversized;
    }
    assert stream.input == arrived[4..][4..] == arrived[8..];
    ok := stream.ReadExact(buf, n);
    if !ok {
      return ShortRead;
    }
    assert arrived[8..][..n] == arrived[8..8 + n];
    assert buf[..] == buf[..n] + buf[n..];
    return Body(buf[..n]);
  }

  // The client's half of an exchange. A body of 4 GiB or more makes the client panic.
  method SendAnnouncement(stream: Stream, a: Announcement) returns (r: Reply)
    requires |EncAnnouncement(a)| < 0x1_0000_0000
    modifies stream
    ensures |RequestFrame(a)| <= old(stream.room) ==>
              r == ParseResponse(old(stream.input)) && stream.output == old(stream.output) + RequestFrame(a)
    ensures |RequestFrame(a)| > old(stream.room) ==>
              r == WriteError && stream.output == old(stream.output) + RequestFrame(a)[..old(stream.room)]
  {
    var body := EncAnnouncement(a);
    var ok := WritePieces(stream, body);
    if !ok {
      return WriteError;
    }
    var buf := new uint8[MAX_MESSAGE_SIZE](_ => 0);
    var u := ReadFrame(stream, buf);
    match u {
      case Body(bytes) =>
        match DecResponse(bytes) {
          case Bad => return BadEncoding;
          case Good(m, _) => return Received(m);
        }
      case why => return NoReply(why);
    }
  }

  // Four writes, one after the other, that come to one frame.
  method WritePieces(stream: Stream, body: Bytes) returns (ok: bool)
    modifies stream`output, stream`room
    ensures ok == (|Frame(body)| <= old(stream.room))
    ensures ok ==> stream.output == old(stream.output) + Frame(body)
    ensures !ok ==> stream.output == old(stream.output) + Frame(body)[..old(stream.room)]
  {
    ghost var before, room, f := stream.output, stream.room, Frame(body);
    ok := stream.WriteAll(MAGIC);
    if !ok {
      assert MAGIC[..room] == f[..room];
      return;
    }
    ok := stream.WriteAll(VERSION);
    if !ok {
      assert MAGIC + VERSION[..room - 3] == f[..room];
      return;
    }
    var size := EncLittleEndian(|body|, 4);
    ok := stream.WriteAll(size);
    if !ok {
      assert MAGIC + VERSION + size[..room - 4] == f[..room];
      return;
    }
    ok := stream.WriteAll(body);
    if !ok {
      assert MAGIC + VERSION + size + body[..room - 8] == f[..room];
    }
  }

}
