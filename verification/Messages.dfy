// The decoders of whole messages read exactly the codes that the grammar gives them.
module Messages {
  import opened Wrappers
  import opened Net
  import opened Text
  import opened Protocol
  import opened Postcard
  import opened Wire
  import opened Frames
  import opened Grammar
  import Nat

  // ---------- Networks ----------

  lemma NetworkIsRead(c: Bytes, v: IpNet, rest: Bytes)
    requires IsIpNet(c, v)
    ensures DecIpNet(c + rest) == Good(v, rest)
  {
    AddressesAreRead();
    match v
    case Net4(a, p) =>
      var t: Bytes, d: Bytes :| c == t + (d + [p]) && IsU32(t, 0) && IsIpv4(d, a);
      Regroup3(t, d, [p], rest);
      U32IsRead(t, 0, d + ([p] + rest));
    case Net6(a, p) =>
      var t: Bytes, d: Bytes :| c == t + (d + [p]) && IsU32(t, 1) && IsIpv6(d, a);
      Regroup3(t, d, [p], rest);
      U32IsRead(t, 1, d + ([p] + rest));
  }

  lemma Cut3(b: Bytes, t: Bytes, b1: Bytes, d: Bytes, b2: Bytes)
    requires b == t + b1 && b1 == d + b2 && |b2| >= 1
    ensures b == t + (d + [b2[0]]) + b2[1..]
  {
    assert b2 == [b2[0]] + b2[1..];
    Regroup3(t, d, [b2[0]], b2[1..]);
  }

  lemma ReadIsNetwork(b: Bytes) returns (c: Bytes)
    requires DecIpNet(b).Good?
    ensures IsIpNet(c, DecIpNet(b).value) && b == c + DecIpNet(b).rest
  {
    AddressesAreRead();
    var t := ReadIsU32(b);
    var b1 := Dec32(b).rest;
    if Dec32(b).value == 0 {
      var d := FirstCode(b1, DecIpv4, IsIpv4);
      var b2 := DecIpv4(b1).rest;
      c := t + (d + [b2[0]]);
      assert IsNet4(c, DecIpv4(b1).value, b2[0]);
      Cut3(b, t, b1, d, b2);
    } else {
      var d := FirstCode(b1, DecIpv6, IsIpv6);
      var b2 := DecIpv6(b1).rest;
      c := t + (d + [b2[0]]);
      assert IsNet6(c, DecIpv6(b1).value, b2[0]);
      Cut3(b, t, b1, d, b2);
    }
  }

  lemma NetworksAreRead()
    ensures Reads(DecIpNet, IsIpNet)
  {
    forall c, v, rest | IsIpNet(c, v) ensures DecIpNet(c + rest) == Good(v, rest) {
      NetworkIsRead(c, v, rest);
    }
    forall b | DecIpNet(b).Good? ensures exists c :: IsIpNet(c, DecIpNet(b).value) && b == c + DecIpNet(b).rest {
      var c := ReadIsNetwork(b);
    }
  }

  // ---------- Announcements ----------

  lemma Regroup2(a: Bytes, b: Bytes, rest: Bytes)
    ensures (a + b) + rest == a + (b + rest)
  {
  }

  lemma Regroup6(c1: Bytes, c2: Bytes, c3: Bytes, c4: Bytes, c5: Bytes, c6: Bytes, rest: Bytes)
    ensures (c1 + (c2 + (c3 + (c4 + (c5 + c6))))) + rest == c1 + (c2 + (c3 + (c4 + (c5 + (c6 + rest)))))
  {
    Regroup4(c3, c4, c5, c6, rest);
    Regroup3(c1, c2, c3 + (c4 + (c5 + c6)), rest);
  }

  lemma HeadIsRead(c1: Bytes, initiator: Str, c2: Bytes, peers: seq<Str>, c3: Bytes, v6: Option<Ipv6Addr>, rest: Bytes)
    requires IsStr(c1, initiator) && IsSeq(c2, peers, IsStr) && IsOptIpv6(c3, v6)
    ensures DecStr(c1 + (c2 + (c3 + rest))) == Good(initiator, c2 + (c3 + rest))
    ensures DecSeq(c2 + (c3 + rest), DecStr) == Good(peers, c3 + rest)
    ensures DecOptIpv6(c3 + rest) == Good(v6, rest)
  {
    TextIsRead(c1, initiator, c2 + (c3 + rest));
    TextsAreRead();
    ListIsRead(c2, peers, c3 + rest, DecStr, IsStr);
    OptionsAreRead();
  }

  lemma EndIsRead(c1: Bytes, port: uint16, c2: Bytes, lan: seq<IpNet>, c3: Bytes, relay: bool, rest: Bytes)
    requires IsU16(c1, port) && IsSeq(c2, lan, IsIpNet) && IsBool(c3, relay)
    ensures Dec16(c1 + (c2 + (c3 + rest))) == Good(port, c2 + (c3 + rest))
    ensures DecSeq(c2 + (c3 + rest), DecIpNet) == Good(lan, c3 + rest)
    ensures DecBool(c3 + rest) == Good(relay, rest)
  {
    U16IsRead(c1, port, c2 + (c3 + rest));
    NetworksAreRead();
    ListIsRead(c2, lan, c3 + rest, DecIpNet, IsIpNet);
    BoolIsRead();
  }

  lemma PartsAreRead(a: Announcement, c1: Bytes, c2: Bytes, c3: Bytes, c4: Bytes, c5: Bytes, c6: Bytes, rest: Bytes)
    requires IsStr(c1, a.initiator) && IsSeq(c2, a.peers, IsStr) && IsOptIpv6(c3, a.ipv6) && IsU16(c4, a.wgPort)
    requires IsSeq(c5, a.lanAddrs, IsIpNet) && IsBool(c6, a.needsRelay)
    ensures DecAnnouncement(c1 + (c2 + (c3 + (c4 + (c5 + (c6 + rest)))))) == Good(a, rest)
  {
    HeadIsRead(c1, a.initiator, c2, a.peers, c3, a.ipv6, c4 + (c5 + (c6 + rest)));
    EndIsRead(c4, a.wgPort, c5, a.lanAddrs, c6, a.needsRelay, rest);
  }

  lemma AnnouncementIsRead(c: Bytes, a: Announcement, rest: Bytes)
    requires IsAnnouncement(c, a)
    ensures DecAnnouncement(c + rest) == Good(a, rest)
  {
    var c1, c2, c3, c4, c5, c6 :|
      && c == c1 + (c2 + (c3 + (c4 + (c5 + c6))))
      && IsStr(c1, a.initiator) && IsSeq(c2, a.peers, IsStr) && IsOptIpv6(c3, a.ipv6) && IsU16(c4, a.wgPort)
      && IsSeq(c5, a.lanAddrs, IsIpNet) && IsBool(c6, a.needsRelay);
    Regroup6(c1, c2, c3, c4, c5, c6, rest);
    PartsAreRead(a, c1, c2, c3, c4, c5, c6, rest);
  }

  lemma AnnouncementHead(b: Bytes, b1: Bytes, b2: Bytes, b3: Bytes) returns (c1: Bytes, c2: Bytes, c3: Bytes)
    requires DecStr(b).Good? && b1 == DecStr(b).rest
    requires DecSeq(b1, DecStr).Good? && b2 == DecSeq(b1, DecStr).rest
    requires DecOptIpv6(b2).Good? && b3 == DecOptIpv6(b2).rest
    ensures IsStr(c1, DecStr(b).value) && IsSeq(c2, DecSeq(b1, DecStr).value, IsStr)
    ensures IsOptIpv6(c3, DecOptIpv6(b2).value) && b == c1 + b1 && b1 == c2 + b2 && b2 == c3 + b3
  {
    c1 := ReadIsText(b);
    TextsAreRead();
    c2 := ReadIsList(b1, DecStr, IsStr);
    OptionsAreRead();
    c3 := FirstCode(b2, DecOptIpv6, IsOptIpv6);
  }

  lemma AnnouncementEnd(b: Bytes, b1: Bytes, b2: Bytes, b3: Bytes) returns (c1: Bytes, c2: Bytes, c3: Bytes)
    requires Dec16(b).Good? && b1 == Dec16(b).rest
    requires DecSeq(b1, DecIpNet).Good? && b2 == DecSeq(b1, DecIpNet).rest
    requires DecBool(b2).Good? && b3 == DecBool(b2).rest
    ensures IsU16(c1, Dec16(b).value) && IsSeq(c2, DecSeq(b1, DecIpNet).value, IsIpNet)
    ensures IsBool(c3, DecBool(b2).value) && b == c1 + b1 && b1 == c2 + b2 && b2 == c3 + b3
  {
    c1 := ReadIsU16(b);
    NetworksAreRead();
    c2 := ReadIsList(b1, DecIpNet, IsIpNet);
    BoolIsRead();
    c3 := FirstCode(b2, DecBool, IsBool);
  }

  lemma Joined6(b: Bytes, c1: Bytes, b1: Bytes, c2: Bytes, b2: Bytes, c3: Bytes, b3: Bytes, c4: Bytes, b4: Bytes,
                c5: Bytes, b5: Bytes, c6: Bytes, b6: Bytes)
    requires b == c1 + b1 && b1 == c2 + b2 && b2 == c3 + b3 && b3 == c4 + b4 && b4 == c5 + b5 && b5 == c6 + b6
    ensures b == c1 + (c2 + (c3 + (c4 + (c5 + c6)))) + b6
  {
    Joined(b4, c5, b5, c6, b6);
    Joined(b3, c4, b4, c5 + c6, b6);
    Joined(b2, c3, b3, c4 + (c5 + c6), b6);
    Joined(b1, c2, b2, c3 + (c4 + (c5 + c6)), b6);
    Joined(b, c1, b1, c2 + (c3 + (c4 + (c5 + c6))), b6);
  }

  lemma ReadIsAnnouncement(b: Bytes) returns (c: Bytes)
    requires DecAnnouncement(b).Good?
    ensures IsAnnouncement(c, DecAnnouncement(b).value) && b == c + DecAnnouncement(b).rest
  {
    var b1 := DecStr(b).rest;
    var b2 := DecSeq(b1, DecStr).rest;
    var b3 := DecOptIpv6(b2).rest;
    var b4 := Dec16(b3).rest;
    var b5 := DecSeq(b4, DecIpNet).rest;
    var b6 := DecBool(b5).rest;
    var c1, c2, c3 := AnnouncementHead(b, b1, b2, b3);
    var c4, c5, c6 := AnnouncementEnd(b3, b4, b5, b6);
    c := c1 + (c2 + (c3 + (c4 + (c5 + c6))));
    Joined6(b, c1, b1, c2, b2, c3, b3, c4, b4, c5, b5, c6, b6);
  }

  // An announcement is read from exactly the bytes that begin with a code of it.
  lemma AnnouncementsAreRead()
    ensures Reads(DecAnnouncement, IsAnnouncement)
  {
    forall c, v, rest | IsAnnouncement(c, v) ensures DecAnnouncement(c + rest) == Good(v, rest) {
      AnnouncementIsRead(c, v, rest);
    }
    forall b | DecAnnouncement(b).Good?
      ensures exists c :: IsAnnouncement(c, DecAnnouncement(b).value) && b == c + DecAnnouncement(b).rest
    {
      var c := ReadIsAnnouncement(b);
    }
  }

  // ---------- Endpoints ----------

  lemma LocalNetworkIsRead(c: Bytes, v6: Option<Ipv6Addr>, lan: seq<IpNet>, port: uint16, rest: Bytes)
    requires IsLocalNetwork(c, v6, lan, port)
    ensures DecLocalNetwork(c + rest) == Good(LocalNetwork(v6, lan, port), rest)
  {
    var c1, c2, c3 :| c == c1 + (c2 + c3) && IsOptIpv6(c1, v6) && IsSeq(c2, lan, IsIpNet) && IsU16(c3, port);
    Regroup3(c1, c2, c3, rest);
    LocalPartsAreRead(c1, v6, c2, lan, c3, port, rest);
  }

  lemma LocalPartsAreRead(c1: Bytes, v6: Option<Ipv6Addr>, c2: Bytes, lan: seq<IpNet>, c3: Bytes, port: uint16,
                          rest: Bytes)
    requires IsOptIpv6(c1, v6) && IsSeq(c2, lan, IsIpNet) && IsU16(c3, port)
    ensures DecLocalNetwork(c1 + (c2 + (c3 + rest))) == Good(LocalNetwork(v6, lan, port), rest)
  {
    assert DecOptIpv6(c1 + (c2 + (c3 + rest))) == Good(v6, c2 + (c3 + rest)) by {
      OptionsAreRead();
    }
    assert DecSeq(c2 + (c3 + rest), DecIpNet) == Good(lan, c3 + rest) by {
      NetworksAreRead();
      ListIsRead(c2, lan, c3 + rest, DecIpNet, IsIpNet);
    }
    U16IsRead(c3, port, rest);
  }

  lemma ReadIsLocalNetwork(b: Bytes) returns (c: Bytes)
    requires DecLocalNetwork(b).Good?
    ensures IsEndpointBody(c, DecLocalNetwork(b).value) && b == c + DecLocalNetwork(b).rest
  {
    var b1 := DecOptIpv6(b).rest;
    var b2 := DecSeq(b1, DecIpNet).rest;
    OptionsAreRead();
    NetworksAreRead();
    var c1 := FirstCode(b, DecOptIpv6, IsOptIpv6);
    var c2 := ReadIsList(b1, DecIpNet, IsIpNet);
    var c3 := ReadIsU16(b2);
    c := c1 + (c2 + c3);
    Joined(b1, c2, b2, c3, Dec16(b2).rest);
    Joined(b, c1, b1, c2 + c3, Dec16(b2).rest);
    assert IsLocalNetwork(c, DecOptIpv6(b).value, DecSeq(b1, DecIpNet).value, Dec16(b2).value);
  }

  lemma RemoteNetworkIsRead(c: Bytes, v4: Option<Ipv4Addr>, v6: Option<Ipv6Addr>, port: uint16, rest: Bytes)
    requires IsRemoteNetwork(c, v4, v6, port)
    ensures DecRemoteNetwork(c + rest) == Good(RemoteNetwork(v4, v6, port), rest)
  {
    var c1, c2, c3 :| c == c1 + (c2 + c3) && IsOptIpv4(c1, v4) && IsOptIpv6(c2, v6) && IsU16(c3, port);
    Regroup3(c1, c2, c3, rest);
    RemotePartsAreRead(c1, v4, c2, v6, c3, port, rest);
  }

  lemma RemotePartsAreRead(c1: Bytes, v4: Option<Ipv4Addr>, c2: Bytes, v6: Option<Ipv6Addr>, c3: Bytes, port: uint16,
                           rest: Bytes)
    requires IsOptIpv4(c1, v4) && IsOptIpv6(c2, v6) && IsU16(c3, port)
    ensures DecRemoteNetwork(c1 + (c2 + (c3 + rest))) == Good(RemoteNetwork(v4, v6, port), rest)
  {
    assert DecOptIpv4(c1 + (c2 + (c3 + rest))) == Good(v4, c2 + (c3 + rest))
        && DecOptIpv6(c2 + (c3 + rest)) == Good(v6, c3 + rest) by {
      OptionsAreRead();
    }
    U16IsRead(c3, port, rest);
  }

  lemma ReadIsRemoteNetwork(b: Bytes) returns (c: Bytes)
    requires DecRemoteNetwork(b).Good?
    ensures IsEndpointBody(c, DecRemoteNetwork(b).value) && b == c + DecRemoteNetwork(b).rest
  {
    var b1 := DecOptIpv4(b).rest;
    var b2 := DecOptIpv6(b1).rest;
    OptionsAreRead();
    var c1 := FirstCode(b, DecOptIpv4, IsOptIpv4);
    var c2 := FirstCode(b1, DecOptIpv6, IsOptIpv6);
    var c3 := ReadIsU16(b2);
    c := c1 + (c2 + c3);
    Joined(b1, c2, b2, c3, Dec16(b2).rest);
    Joined(b, c1, b1, c2 + c3, Dec16(b2).rest);
    assert IsRemoteNetwork(c, DecOptIpv4(b).value, DecOptIpv6(b1).value, Dec16(b2).value);
  }

  lemma RelayIsRead(c: Bytes, id: uint64, port: uint16, rest: Bytes)
    requires IsRelay(c, id, port)
    ensures DecRelay(c + rest) == Good(Relay(id, port), rest)
  {
    var c1, c2 :| c == c1 + c2 && IsU64(c1, id) && IsU16(c2, port);
    Regroup2(c1, c2, rest);
    U64IsRead(c1, id, c2 + rest);
    U16IsRead(c2, port, rest);
  }

  lemma ReadIsRelay(b: Bytes) returns (c: Bytes)
    requires DecRelay(b).Good?
    ensures IsEndpointBody(c, DecRelay(b).value) && b == c + DecRelay(b).rest
  {
    var b1 := Dec64(b).rest;
    var c1 := ReadIsU64(b);
    var c2 := ReadIsU16(b1);
    c := c1 + c2;
    Joined(b, c1, b1, c2, Dec16(b1).rest);
    assert IsRelay(c, Dec64(b).value, Dec16(b1).value);
  }

  lemma BodyIsRead(d: Bytes, e: Endpoint, rest: Bytes)
    requires IsEndpointBody(d, e)
    ensures match e
            case Unknown => d + rest == rest
            case LocalNetwork(_, _, _) => DecLocalNetwork(d + rest) == Good(e, rest)
            case RemoteNetwork(_, _, _) => DecRemoteNetwork(d + rest) == Good(e, rest)
            case Relay(_, _) => DecRelay(d + rest) == Good(e, rest)
  {
    match e
    case Unknown => assert d + rest == rest;
    case LocalNetwork(v6, lan, port) => LocalNetworkIsRead(d, v6, lan, port, rest);
    case RemoteNetwork(v4, v6, port) => RemoteNetworkIsRead(d, v4, v6, port, rest);
    case Relay(id, port) => RelayIsRead(d, id, port, rest);
  }

  lemma EndpointIsRead(c: Bytes, e: Endpoint, rest: Bytes)
    requires IsEndpoint(c, e)
    ensures DecEndpoint(c + rest) == Good(e, rest)
  {
    var t, d :| c == t + d && IsU32(t, TagOf(e)) && IsEndpointBody(d, e);
    Regroup2(t, d, rest);
    U32IsRead(t, TagOf(e), d + rest);
    BodyIsRead(d, e, rest);
  }

  lemma ReadIsEndpoint(b: Bytes) returns (c: Bytes)
    requires DecEndpoint(b).Good?
    ensures IsEndpoint(c, DecEndpoint(b).value) && b == c + DecEndpoint(b).rest
  {
    var t := ReadIsU32(b);
    var b1 := Dec32(b).rest;
    var d: Bytes;
    match Dec32(b).value {
      case 0 => d := [];
      case 1 => d := ReadIsLocalNetwork(b1);
      case 2 => d := ReadIsRemoteNetwork(b1);
      case _ => d := ReadIsRelay(b1);
    }
    c := t + d;
    var e := DecEndpoint(b).value;
    assert IsU32(t, TagOf(e)) && IsEndpointBody(d, e);
    Joined(b, t, b1, d, DecEndpoint(b).rest);
  }

  // ---------- Answers ----------

  lemma EntryIsRead(c: Bytes, e: (Str, Endpoint), rest: Bytes)
    requires IsEntry(c, e)
    ensures DecEntry(c + rest) == Good(e, rest)
  {
    var k, d :| c == k + d && IsStr(k, e.0) && IsEndpoint(d, e.1);
    Regroup2(k, d, rest);
    PairIsRead(k, d, e, rest);
  }

  lemma PairIsRead(k: Bytes, d: Bytes, e: (Str, Endpoint), rest: Bytes)
    requires IsStr(k, e.0) && IsEndpoint(d, e.1)
    ensures DecEntry(k + (d + rest)) == Good(e, rest)
  {
    TextIsRead(k, e.0, d + rest);
    EndpointIsRead(d, e.1, rest);
  }

  lemma ReadIsEntry(b: Bytes) returns (c: Bytes)
    requires DecEntry(b).Good?
    ensures IsEntry(c, DecEntry(b).value) && b == c + DecEntry(b).rest
  {
    var b1 := DecStr(b).rest;
    var k := ReadIsText(b);
    var d := ReadIsEndpoint(b1);
    c := k + d;
    Joined(b, k, b1, d, DecEndpoint(b1).rest);
  }

  lemma EntriesAreRead()
    ensures Reads(DecEntry, IsEntry)
  {
    forall c, v, rest | IsEntry(c, v) ensures DecEntry(c + rest) == Good(v, rest) {
      EntryIsRead(c, v, rest);
    }
    forall b | DecEntry(b).Good? ensures exists c :: IsEntry(c, DecEntry(b).value) && b == c + DecEntry(b).rest {
      var c := ReadIsEntry(b);
    }
  }

  lemma LastOneBefore(past: seq<(Str, Endpoint)>, e: (Str, Endpoint), i: nat)
    requires i < |past| && LastOne(past + [e], i)
    ensures LastOne(past, i) && e.0 != past[i].0
  {
    var all := past + [e];
    assert all[|past|] == e && forall j :: 0 <= j < |past| ==> all[j] == past[j];
  }

  lemma SaysOneMore(past: seq<(Str, Endpoint)>, e: (Str, Endpoint), m: Response)
    requires SaysOf(past, m)
    ensures SaysOf(past + [e], m[e.0 := e.1])
  {
    var all, m' := past + [e], m[e.0 := e.1];
    forall k | k in m' ensures exists i :: 0 <= i < |all| && all[i].0 == k {
      if k == e.0 {
        assert all[|past|].0 == k;
      } else {
        var i :| 0 <= i < |past| && past[i].0 == k;
        assert all[i].0 == k;
      }
    }
    forall i: nat | LastOne(all, i) ensures all[i].0 in m' && m'[all[i].0] == all[i].1 {
      if i < |past| {
        LastOneBefore(past, e, i);
        assert LastOne(past, i) && past[i].0 in m;
      }
    }
  }

  // Pair by pair, a later one overrides an earlier one.
  lemma {:induction false} CollectSays(entries: seq<(Str, Endpoint)>)
    ensures SaysOf(entries, Collect(entries))
  {
    if entries != [] {
      var past, e := entries[..|entries| - 1], entries[|entries| - 1];
      var m := Collect(past);
      assert SaysOf(past, m) by {
        CollectSays(past);
      }
      assert entries == past + [e] && Collect(entries) == m[e.0 := e.1];
      SaysOneMore(past, e, m);
    }
  }

  // And that determines the map.
  lemma {:induction false} LastMention(entries: seq<(Str, Endpoint)>, k: Str, i: nat) returns (last: nat)
    requires i < |entries| && entries[i].0 == k
    ensures LastOne(entries, last) && entries[last].0 == k
    decreases |entries| - i
  {
    if j :| i < j < |entries| && entries[j].0 == k {
      last := LastMention(entries, k, j);
    } else {
      last := i;
    }
  }

  lemma SaysAt(entries: seq<(Str, Endpoint)>, m: Response, m': Response, k: Str)
    requires SaysOf(entries, m) && SaysOf(entries, m') && k in m
    ensures k in m' && m'[k] == m[k]
  {
    var i: nat :| i < |entries| && entries[i].0 == k;
    var last := LastMention(entries, k, i);
  }

  lemma SameMaps(m: Response, m': Response)
    requires forall k :: k in m ==> k in m' && m'[k] == m[k]
    requires forall k :: k in m' ==> k in m
    ensures m == m'
  {
  }

  lemma SaysOne(entries: seq<(Str, Endpoint)>, m: Response, m': Response)
    requires SaysOf(entries, m) && SaysOf(entries, m')
    ensures m == m'
  {
    forall k | k in m ensures k in m' && m'[k] == m[k] {
      SaysAt(entries, m, m', k);
    }
    forall k | k in m' ensures k in m {
      SaysAt(entries, m', m, k);
    }
    SameMaps(m, m');
  }

  lemma ResponseIsRead(c: Bytes, m: Response, rest: Bytes)
    requires IsResponse(c, m)
    ensures DecResponse(c + rest) == Good(m, rest)
  {
    var entries :| IsSeq(c, entries, IsEntry) && SaysOf(entries, m);
    EntriesAreRead();
    ListIsRead(c, entries, rest, DecEntry, IsEntry);
    CollectSays(entries);
    SaysOne(entries, m, Collect(entries));
  }

  lemma ReadIsResponse(b: Bytes) returns (c: Bytes)
    requires DecResponse(b).Good?
    ensures IsResponse(c, DecResponse(b).value) && b == c + DecResponse(b).rest
  {
    EntriesAreRead();
    c := ReadIsList(b, DecEntry, IsEntry);
    CollectSays(DecSeq(b, DecEntry).value);
  }

  // An answer is read from exactly the bytes that begin with a code of it.
  lemma ResponsesAreRead()
    ensures Reads(DecResponse, IsResponse)
  {
    forall c, v, rest | IsResponse(c, v) ensures DecResponse(c + rest) == Good(v, rest) {
      ResponseIsRead(c, v, rest);
    }
    forall b | DecResponse(b).Good?
      ensures exists c :: IsResponse(c, DecResponse(b).value) && b == c + DecResponse(b).rest
    {
      var c := ReadIsResponse(b);
    }
  }

  // ---------- The STUN messages ----------

  lemma StunResponseIsRead(c: Bytes, r: StunResult, rest: Bytes)
    requires IsStunResponse(c, r)
    ensures DecStunResponse(c + rest) == Good(r, rest)
  {
    match r
    case SamePort => U32IsRead(c, 0, rest);
    case DifferentPort(port) =>
      var t, d :| c == t + d && IsU32(t, 1) && IsU16(d, port);
      Regroup2(t, d, rest);
      U32IsRead(t, 1, d + rest);
      U16IsRead(d, port, rest);
  }

  lemma ReadIsStunResponse(b: Bytes) returns (c: Bytes)
    requires DecStunResponse(b).Good?
    ensures IsStunResponse(c, DecStunResponse(b).value) && b == c + DecStunResponse(b).rest
  {
    c := ReadIsU32(b);
    if Dec32(b).value == 1 {
      var t, b1 := c, Dec32(b).rest;
      var d := ReadIsU16(b1);
      c := t + d;
      Joined(b, t, b1, d, Dec16(b1).rest);
      assert IsDifferentPort(c, Dec16(b1).value);
    }
  }

  lemma StunMessagesAreRead()
    ensures Reads(DecStunRequest, IsU16) && Reads(DecStunResponse, IsStunResponse)
  {
    forall c, v: uint16, rest | IsU16(c, v) ensures DecStunRequest(c + rest) == Good(v, rest) {
      U16IsRead(c, v, rest);
    }
    forall b | DecStunRequest(b).Good?
      ensures exists c :: IsU16(c, DecStunRequest(b).value) && b == c + DecStunRequest(b).rest
    {
      var c := ReadIsU16(b);
    }
    forall c, v, rest | IsStunResponse(c, v) ensures DecStunResponse(c + rest) == Good(v, rest) {
      StunResponseIsRead(c, v, rest);
    }
    forall b | DecStunResponse(b).Good?
      ensures exists c :: IsStunResponse(c, DecStunResponse(b).value) && b == c + DecStunResponse(b).rest
    {
      var c := ReadIsStunResponse(b);
    }
  }

  // ---------- From the bytes that arrive ----------

  // The bytes hold a whole frame.
  predicate HasMessage(b: Bytes) {
    HasHeader(b) && |b| >= 8 && LengthField(b) <= 4096 && |b| >= 8 + LengthField(b)
  }

  function Message(b: Bytes): Bytes
    requires HasMessage(b)
  {
    b[8..8 + LengthField(b)]
  }

  predicate IsKeyText(s: Str) {
    |s| == 44 && forall i :: 0 <= i < |s| ==> s[i] <= 0x7F && s[i] as char in UPPER + LOWER + DIGITS + "+/="
  }

  // Keys are 44 base64 characters, and the port is not a privileged one.
  predicate IsAcceptable(a: Announcement) {
    IsKeyText(a.initiator) && (forall p :: p in a.peers ==> IsKeyText(p)) && a.wgPort >= 1024
  }

  lemma KeyTextIsValid(s: Str)
    ensures ValidWgKey(s) <==> IsKeyText(s)
  {
    forall i | 0 <= i < |s|
      ensures KeyChar(s[i]) <==> s[i] <= 0x7F && s[i] as char in UPPER + LOWER + DIGITS + "+/="
    {
      KeyCharIsBase64(s[i] as char);
    }
  }

  lemma AcceptableIsValid(a: Announcement)
    ensures Valid(a) <==> IsAcceptable(a)
  {
    KeyTextIsValid(a.initiator);
    forall p | p in a.peers ensures ValidWgKey(p) <==> IsKeyText(p) {
      KeyTextIsValid(p);
    }
  }

  // The bytes begin with a frame whose message, with zeros after it up to the size of the server's
  // buffer, begins with a code of a.
  ghost predicate Announces(b: Bytes, a: Announcement) {
    HasMessage(b) && exists c :: IsAnnouncement(c, a) && c <= Message(b) + Zeros(4096 - LengthField(b))
  }

  lemma PaddedBytes(b: Bytes)
    requires HasMessage(b)
    ensures Padded(Message(b)) == Message(b) + Zeros(4096 - LengthField(b))
  {
  }

  lemma AnnouncesMeans(b: Bytes, a: Announcement)
    requires HasMessage(b)
    ensures Announces(b, a) <==>
              DecAnnouncement(Padded(Message(b))).Good? && DecAnnouncement(Padded(Message(b))).value == a
  {
    PaddedBytes(b);
    AnnouncementsAreRead();
    ReadsPrefix(DecAnnouncement, IsAnnouncement, Padded(Message(b)), a);
  }

  lemma AllAnnounced(b: Bytes, p: Parse<Announcement>)
    requires HasMessage(b) && p == DecAnnouncement(Padded(Message(b)))
    ensures forall a :: Announces(b, a) <==> p.Good? && p.value == a
  {
    forall a ensures Announces(b, a) <==> p.Good? && p.value == a {
      AnnouncesMeans(b, a);
    }
  }

  // What the server makes of a message that decodes to p.
  function Judged(p: Parse<Announcement>): Request {
    if p.Bad? then Undecodable else if Valid(p.value) then Accepted(p.value) else Invalid(p.value)
  }

  lemma BodyIsJudged(input: Bytes, body: Bytes, p: Parse<Announcement>)
    requires Unframe(input) == Body(body) && p == DecAnnouncement(Padded(body))
    ensures ParseRequest(input) == Judged(p)
  {
  }

  lemma JudgedByBytes(input: Bytes, p: Parse<Announcement>, r: Request, a: Announcement)
    requires r == Judged(p) && forall x :: Announces(input, x) <==> p.Good? && p.value == x
    ensures r == Accepted(a) <==> Announces(input, a) && IsAcceptable(a)
    ensures r == Invalid(a) <==> Announces(input, a) && !IsAcceptable(a)
    ensures r == Undecodable <==> forall x :: !Announces(input, x)
  {
    AcceptableIsValid(a);
    if p.Good? {
      assert Announces(input, p.value);
    }
  }

  // The server accepts an announcement exactly when it is announced and acceptable, finds it invalid
  // exactly when it is announced and not acceptable, and cannot decode a message exactly when it
  // announces nothing.
  lemma AnnouncementIsAccepted(input: Bytes, r: Request, a: Announcement)
    requires r == ParseRequest(input)
    ensures r == Accepted(a) <==> Announces(input, a) && IsAcceptable(a)
    ensures r == Invalid(a) <==> Announces(input, a) && !IsAcceptable(a)
    ensures r == Undecodable <==> HasMessage(input) && forall x :: !Announces(input, x)
    ensures r.Malformed? <==> !HasMessage(input)
  {
    UnframeByBytes(input);
    if HasMessage(input) {
      var p := DecAnnouncement(Padded(Message(input)));
      AllAnnounced(input, p);
      BodyIsJudged(input, Message(input), p);
      JudgedByBytes(input, p, r, a);
    }
  }

  // The client receives an answer exactly when the message of a frame begins with a code of it.
  lemma ResponseIsReceived(input: Bytes, m: Response)
    ensures ParseResponse(input) == Received(m) <==>
              HasMessage(input) && exists c :: IsResponse(c, m) && c <= Message(input)
  {
    UnframeByBytes(input);
    if HasMessage(input) {
      ResponsesAreRead();
      ReadsPrefix(DecResponse, IsResponse, Message(input), m);
    }
  }

  // A STUN server replies to a buffer with a header and a code of a port, and to nothing else: in one
  // byte when it sees that very port, and otherwise with the port it sees.
  lemma PortIsAnswered(buf: Bytes, seen: uint16, port: uint16, c: Bytes)
    requires |buf| >= 4 && IsU16(c, port) && c <= buf[4..]
    ensures Nat.StunReply(buf, seen) ==
            if !HasHeader(buf) then None else if seen == port then Some([0]) else Some([1] + EncVarint(seen))
  {
    HeaderBytes(buf);
    StunMessagesAreRead();
    ReadsPrefix(DecStunRequest, IsU16, buf[4..], port);
  }

  lemma NothingElseIsAnswered(buf: Bytes, seen: uint16)
    requires |buf| >= 4 && forall c, port: uint16 :: IsU16(c, port) ==> !(c <= buf[4..])
    ensures Nat.StunReply(buf, seen) == None
  {
    StunMessagesAreRead();
    if DecStunRequest(buf[4..]).Good? {
      ReadsPrefix(DecStunRequest, IsU16, buf[4..], DecStunRequest(buf[4..]).value);
    }
  }

  // The client reads a reply in a zeroed buffer of 1024 bytes.
  lemma ReplyIsRead(datagram: Bytes, r: StunResult)
    ensures Nat.ParseStunReply(datagram) == Some(r) <==>
              exists c :: IsStunResponse(c, r) && c <= (datagram + Zeros(1024))[..1024]
  {
    var buf := Nat.Overwritten(Zeros(1024), datagram);
    assert buf == (datagram + Zeros(1024))[..1024];
    StunMessagesAreRead();
    ReadsPrefix(DecStunResponse, IsStunResponse, buf, r);
  }

}
