// What the server does with bytes that it does not accept, in terms of those bytes.
module Refusals {
  import opened Net
  import Text
  import opened Protocol
  import opened Postcard
  import opened Wire
  import opened Peering
  import opened Frames
  import opened Messages
  import opened Handler

  lemma NotAMessage(input: Bytes, request: Request)
    requires request == ParseRequest(input) && !HasMessage(input)
    ensures request == Malformed(Unframe(input)) && !Unframe(input).Body?
  {
    UnframeByBytes(input);
  }

  // Which bytes are refused, and why.
  lemma RequestByBytes(input: Bytes, request: Request)
    requires request == ParseRequest(input)
    ensures request == Malformed(WrongVersion) <==> HasMagic(input) && input[3] != 1
    ensures request == Malformed(WrongMagic) <==> |input| >= 4 && !HasMagic(input)
    ensures request in {Malformed(ShortRead), Malformed(Oversized)} <==>
              |input| < 4 || (HasHeader(input) && !HasMessage(input))
    ensures request == Undecodable <==> HasMessage(input) && forall a :: !Announces(input, a)
    ensures request.Invalid? <==> exists a :: Announces(input, a) && !IsAcceptable(a)
  {
    UnframeByBytes(input);
    if !HasMessage(input) {
      NotAMessage(input, request);
    } else {
      var p := DecAnnouncement(Padded(Message(input)));
      AllAnnounced(input, p);
      BodyIsJudged(input, Message(input), p);
      if p.Good? {
        JudgedByBytes(input, p, request, p.value);
      }
    }
  }

  // A client of another version is sent the server's own header, as far as there is room; nobody
  // else is sent anything. Whoever is refused, the directory, the relays and the counter stay as they
  // were. The handler reports a failure when the bytes end too early, announce too long a message or
  // hold no announcement, and otherwise only when it cannot write or close.
  lemma RefusedByBytes(c: Config, input: Bytes, request: Request, from: IpAddr, room: nat, closes: bool,
                       free: nat -> uint16, stamps: nat -> Time, before: View, after: View, r: Outcome)
    requires request == ParseRequest(input)
    requires Handles(c, request, from, room, closes, free, stamps, before, after, r)
    ensures HasMagic(input) && input[3] != 1 ==>
              && after == before.(output := before.output + [0xFD, 0xAC, 0xAF, 1][..if room < 4 then room else 4])
              && r == if room >= 4 && closes then Finished else Failed
    ensures |input| >= 4 && !HasMagic(input) ==> after == before && r == if closes then Finished else Failed
    ensures |input| < 4 || (HasHeader(input) && !HasMessage(input)) ==> after == before && r == Failed
    ensures HasMessage(input) && (forall a :: !Announces(input, a)) ==> after == before && r == Failed
    ensures (exists a :: Announces(input, a) && !IsAcceptable(a)) ==>
              after == before && r == if closes then Finished else Failed
  {
    RequestByBytes(input, request);
    RefusalsMean(c, request, from, room, closes, free, stamps, before, after, r);
  }

  lemma RefusalsMean(c: Config, request: Request, from: IpAddr, room: nat, closes: bool, free: nat -> uint16,
                     stamps: nat -> Time, before: View, after: View, r: Outcome)
    requires Handles(c, request, from, room, closes, free, stamps, before, after, r)
    ensures request == Malformed(WrongVersion) ==>
              && after == before.(output := before.output + [0xFD, 0xAC, 0xAF, 1][..if room < 4 then room else 4])
              && r == if room >= 4 && closes then Finished else Failed
    ensures request == Malformed(WrongMagic) || request.Invalid? ==>
              after == before && r == if closes then Finished else Failed
    ensures request in {Malformed(ShortRead), Malformed(Oversized), Undecodable} ==> after == before && r == Failed
  {
    assert MAGIC + VERSION == [0xFD, 0xAC, 0xAF, 1];
    assert [0xFD, 0xAC, 0xAF, 1][..4] == [0xFD, 0xAC, 0xAF, 1];
  }

  // As much of an answer goes out as there is room for, unless its length has no code.
  lemma SentIsPrefix(entries: seq<(Text.Str, Endpoint)>, room: nat)
    ensures if |EncResponse(entries)| >= 0x1_0000_0000 then Sent(entries, room) == []
            else && Sent(entries, room) <= ResponseFrame(entries)
                 && (|Sent(entries, room)| == room || (Sent(entries, room) == ResponseFrame(entries)
                                                       && |ResponseFrame(entries)| <= room))
  {
  }

}
