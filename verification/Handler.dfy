// One connection handled from beginning to end with no other task in between.
module Handler {
  import opened Wrappers
  import opened Net
  import opened Text
  import opened Protocol
  import opened Postcard
  import opened Wire
  import opened RelayPorts
  import opened Peering

  class ServerStats {
    var tlsErrors: nat
    var relaysNeeded: nat

    constructor ()
      ensures tlsErrors == 0 && relaysNeeded == 0
    {
      tlsErrors, relaysNeeded := 0, 0;
    }

    method IncTlsErrors()
      modifies `tlsErrors
      ensures tlsErrors == old(tlsErrors) + 1
    {
      tlsErrors := tlsErrors + 1;
    }

    method IncRelaysNeeded()
      modifies `relaysNeeded
      ensures relaysNeeded == old(relaysNeeded) + 1
    {
      relaysNeeded := relaysNeeded + 1;
    }
  }

  datatype Outcome = Finished | Failed | Panicked

  // The first n values that a source gives.
  function Readings<T>(n: nat, source: nat -> T): (s: seq<T>)
    ensures |s| == n && forall i :: 0 <= i < n ==> s[i] == source(i)
  {
    seq(n, i requires 0 <= i < n => source(i))
  }

  // What a connection can see and change.
  datatype View = View(output: Bytes, records: Records, tables: Tables, relaysNeeded: nat)

  // The effect of a request that is not accepted: nothing but the server's own header is written,
  // for a wrong version. The handler is content when it gets as far as closing the connection, and
  // closes says whether that succeeds.
  predicate Refuses(why: Request, room: nat, closes: bool, before: View, after: View, r: Outcome) {
    var header := MAGIC + VERSION;
    match why
    case Malformed(WrongVersion) =>
      && after == before.(output := before.output + if room < 4 then header[..room] else header)
      && r == (if room >= 4 && closes then Finished else Failed)
    case Malformed(WrongMagic) => after == before && r == (if closes then Finished else Failed)
    case Invalid(_) => after == before && r == (if closes then Finished else Failed)
    case _ => after == before && r == Failed
  }

  // Whether the answer can go out as a whole: its length fits in the frame's length field, and the
  // frame in the room for writing.
  predicate GoesOut(entries: seq<(Str, Endpoint)>, room: nat) {
    |EncResponse(entries)| < 0x1_0000_0000 && |ResponseFrame(entries)| <= room
  }

  // What is written of it.
  function Sent(entries: seq<(Str, Endpoint)>, room: nat): Bytes {
    if |EncResponse(entries)| >= 0x1_0000_0000 then []
    else if |ResponseFrame(entries)| > room then ResponseFrame(entries)[..room]
    else ResponseFrame(entries)
  }

  // The effect of an accepted announcement: the directory is read as it was before, as much of the
  // answer to that reading goes out as can, and the directory is written only when the whole of it
  // went out, the connection was closed in order and the announcer's address is IPv4. A panic comes
  // before all that.
  ghost predicate Serves(c: Config, a: Announcement, from: IpAddr, room: nat, closes: bool, free: nat -> uint16,
                         stamps: nat -> Time, before: View, after: View, r: Outcome)
  {
    var (m, t) := LookupAll(c, a, from, before.records, before.tables, Readings(|a.peers|, free));
    match m
    case None => r.Panicked? && after == before.(tables := t)
    case Some(answer) => exists entries :: Enumerates(entries, answer)
                                           && ServesWith(a, entries, from, room, closes, stamps, t, before, after, r)
  }

  // The same for one order of the answer's entries.
  predicate ServesWith(a: Announcement, entries: seq<(Str, Endpoint)>, from: IpAddr, room: nat, closes: bool,
                    stamps: nat -> Time, t: Tables, before: View, after: View, r: Outcome)
  {
    var stores := GoesOut(entries, room) && closes && from.V4?;
    && r == (if stores then Finished else Failed)
    && after == View(before.output + Sent(entries, room),
                     if stores then StoreAll(before.records, a, from.v4, Readings(|a.peers|, stamps))
                     else before.records,
                     t,
                     before.relaysNeeded + if stores && a.needsRelay then 1 else 0)
  }

  // The effect of a connection, whatever it asks for.
  ghost predicate Handles(c: Config, request: Request, from: IpAddr, room: nat, closes: bool, free: nat -> uint16,
                          stamps: nat -> Time, before: View, after: View, r: Outcome)
  {
    match request
    case Accepted(a) => Serves(c, a, from, room, closes, free, stamps, before, after, r)
    case why => Refuses(why, room, closes, before, after, r)
  }

  // free and stamps are what the port allocator and the clock give in turn; closes says whether
  // the connection can be closed in order.
  method HandleConnection(c: Config, stream: Stream, from: IpAddr, storage: Storage, relays: RelayManager,
                          stats: ServerStats, closes: bool, free: nat -> uint16, stamps: nat -> Time)
    returns (r: Outcome)
    modifies stream, storage, relays, stats`relaysNeeded
    ensures var before := View(old(stream.output), old(storage.peeringRecords), old(relays.Contents()),
        old(stats.relaysNeeded));
            var after := View(stream.output, storage.peeringRecords, relays.Contents(), stats.relaysNeeded);
            Handles(c, ParseRequest(old(stream.input)), from, old(stream.room), closes, free, stamps, before, after, r)
  {
    var buffer := new uint8[MAX_MESSAGE_SIZE](_ => 0);
    assert buffer[..] == Zeros(MAX_MESSAGE_SIZE);
    var u := ReadFrame(stream, buffer);
    if u.WrongMagic? {
      return if closes then Finished else Failed;
    }
    if u.WrongVersion? {
      ghost var written, room := stream.output, stream.room;
      var ok := stream.WriteAll(MAGIC);
      if !ok {
        assert MAGIC[..room] == (MAGIC + VERSION)[..room];
        return Failed;
      }
      ok := stream.WriteAll(VERSION);
      if !ok {
        assert written + MAGIC + VERSION[..room - 3] == written + (MAGIC + VERSION)[..room];
        return Failed;
      }
      assert written + MAGIC + VERSION == written + (MAGIC + VERSION);
      return if closes then Finished else Failed;
    }
    if !u.Body? {
      return Failed;
    }
    assert buffer[..] == Padded(u.body);
    match DecAnnouncement(buffer[..]) {
      case Bad => return Failed;
      case Good(a, _) =>
        var valid := CheckAnnouncement(a);
        if !valid {
          return if closes then Finished else Failed;
        }
        r := Answer(c, stream, from, storage, relays, stats, closes, free, stamps, a);
    }
  }

  // The server's check of an announcement, key by key.
  method CheckAnnouncement(a: Announcement) returns (ok: bool)
    ensures ok <==> Valid(a)
  {
    ok := IsValidWgKey(a.initiator);
    if !ok {
      return;
    }
    for i := 0 to |a.peers|
      invariant forall p :: p in a.peers[..i] ==> ValidWgKey(p)
    {
      ok := IsValidWgKey(a.peers[i]);
      if !ok {
        assert a.peers[i] in a.peers;
        return;
      }
    }
    assert a.peers[..|a.peers|] == a.peers;
    ok := a.wgPort >= 1024;
  }

  method Answer(c: Config, stream: Stream, from: IpAddr, storage: Storage, relays: RelayManager,
                stats: ServerStats, closes: bool, free: nat -> uint16, stamps: nat -> Time, a: Announcement)
    returns (r: Outcome)
    modifies stream`output, stream`room, storage, relays, stats`relaysNeeded
    ensures var before := View(old(stream.output), old(storage.peeringRecords), old(relays.Contents()),
        old(stats.relaysNeeded));
            var after := View(stream.output, storage.peeringRecords, relays.Contents(), stats.relaysNeeded);
            Serves(c, a, from, old(stream.room), closes, free, stamps, before, after, r)
  {
    var answer := storage.GetPeerEndpoints(c, a, from, relays, Readings(|a.peers|, free));
    if answer.None? {
      return Panicked;
    }
    var entries := Entries(answer.value);
    ghost var room, written, before := stream.room, stream.output, storage.peeringRecords;
    var body := EncResponse(entries);
    if |body| >= 0x1_0000_0000 {
      assert written + [] == written;
      return Failed;
    }
    var ok := WritePieces(stream, body);
    if !ok || !closes {
      return Failed;
    }
    ok := storage.ProcessAnnouncement(a, from, Readings(|a.peers|, stamps));
    if !ok {
      return Failed;
    }
    if a.needsRelay {
      stats.IncRelaysNeeded();
    }
    return Finished;
  }

  // What the server does with a socket it accepted: a failed TLS handshake is counted, and nothing
  // else happens.
  method AcceptConnection(c: Config, handshake: bool, stream: Stream, from: IpAddr, storage: Storage,
                          relays: RelayManager,
                          stats: ServerStats, closes: bool, free: nat -> uint16, stamps: nat -> Time)
    returns (r: Option<Outcome>)
    modifies stream, storage, relays, stats
    ensures var before := View(old(stream.output), old(storage.peeringRecords), old(relays.Contents()),
        old(stats.relaysNeeded));
            var after := View(stream.output, storage.peeringRecords, relays.Contents(), stats.relaysNeeded);
            && r.Some? == handshake
            && stats.tlsErrors == old(stats.tlsErrors) + (if handshake then 0 else 1)
            && match r
               case None => after == before
               case Some(outcome) =>
                 Handles(c, ParseRequest(old(stream.input)), from, old(stream.room), closes, free, stamps, before,
                     after, outcome)
  {
    if !handshake {
      stats.IncTlsErrors();
      return None;
    }
    var outcome := HandleConnection(c, stream, from, storage, relays, stats, closes, free, stamps);
    return Some(outcome);
  }

}
