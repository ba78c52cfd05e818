// The shared directory of the coordination server: who announced for whom, and its three
// operations. Times are in nanoseconds.
module Peering {
  import opened Wrappers
  import opened Net
  import opened Text
  import opened Protocol
  import opened RelayPorts

  type Time = int

  const SECOND: Time := 1_000_000_000
  const RECORD_TIMEOUT: Time := 60 * 60 * SECOND

  datatype Record = Record(
    wanIpv4: Ipv4Addr,
    wanIpv6: Option<Ipv6Addr>,
    lanAddrs: seq<IpNet>,
    wgPort: uint16,
    timestamp: Time,
    needsRelay: bool)

  type Records = map<(Str, Str), Record>

  // Whether relaying is built in (the server ships with it off), and the byte form of a key.
  datatype Config = Config(relayOn: bool, bytes: Str -> KeyBytes)

  // ---------- Lookup ----------

  function Port(kind: Kind): uint16 {
    match kind
    case Proto(p) => p
    case Pending(p) => p
    case Established(p) => p
  }

  // The answer about one peer, and the relay tables after it. None stands for the server's panic
  // on an established relay of a peer it has no record of.
  function LookupOne(c: Config, peer: Str, a: Announcement, from: IpAddr, rs: Records, t: Tables, free: uint16)
    : (Option<Endpoint>, Tables)
  {
    if (peer, a.initiator) in rs then
      var r := rs[(peer, a.initiator)];
      if from == V4(r.wanIpv4) then (Some(LocalNetwork(r.wanIpv6, r.lanAddrs, r.wgPort)), t)
      else if c.relayOn && (a.needsRelay || r.needsRelay) then
        var (t', kind) := Ask(t, Call(a.initiator, peer, free), c.bytes);
        (Some(Relay(1, Port(kind))), t')
      else (Some(RemoteNetwork(Some(r.wanIpv4), r.wanIpv6, r.wgPort)), t)
    else if c.relayOn && a.needsRelay then
      var (t', kind) := Ask(t, Call(a.initiator, peer, free), c.bytes);
      (if kind.Established? then None else Some(Relay(1, Port(kind))), t')
    else (Some(Unknown), t)
  }

  // The answer about the first n peers; free holds the port that is free at each of them.
  function LookupFirst(c: Config, n: nat, a: Announcement, from: IpAddr, rs: Records, t: Tables, free: seq<uint16>)
    : (Option<Response>, Tables)
    requires n <= |a.peers| == |free|
  {
    if n == 0 then (Some(map[]), t)
    else
      var (m, t1) := LookupFirst(c, n - 1, a, from, rs, t, free);
      if m.None? then (None, t1)
      else
        var (e, t2) := LookupOne(c, a.peers[n - 1], a, from, rs, t1, free[n - 1]);
        (if e.None? then None else Some(m.value[a.peers[n - 1] := e.value]), t2)
  }

  lemma LookupStep(c: Config, n: nat, a: Announcement, from: IpAddr, rs: Records, t: Tables, free: seq<uint16>)
    requires n < |a.peers| == |free| && LookupFirst(c, n, a, from, rs, t, free).0.Some?
    ensures var (m, t1) := LookupFirst(c, n, a, from, rs, t, free);
            var (e, t2) := LookupOne(c, a.peers[n], a, from, rs, t1, free[n]);
            LookupFirst(c, n + 1, a, from, rs, t, free)
                == (if e.None? then None else Some(m.value[a.peers[n] := e.value]), t2)
  {
  }

  function LookupAll(c: Config, a: Announcement, from: IpAddr, rs: Records, t: Tables, free: seq<uint16>)
    : (Option<Response>, Tables)
    requires |a.peers| == |free|
  {
    LookupFirst(c, |a.peers|, a, from, rs, t, free)
  }

  // What an answer about peer may be, given the records: everything but the relay port.
  predicate Answers(relayOn: bool, e: Endpoint, peer: Str, a: Announcement, from: IpAddr, rs: Records) {
    if (peer, a.initiator) in rs then
      var r := rs[(peer, a.initiator)];
      if from == V4(r.wanIpv4) then e == LocalNetwork(r.wanIpv6, r.lanAddrs, r.wgPort)
      else if relayOn && (a.needsRelay || r.needsRelay) then e.Relay? && e.id == 1
      else e == RemoteNetwork(Some(r.wanIpv4), r.wanIpv6, r.wgPort)
    else if relayOn && a.needsRelay then e.Relay? && e.id == 1
    else e == Unknown
  }

  predicate AnswersAll(relayOn: bool, m: Response, a: Announcement, from: IpAddr, rs: Records) {
    && m.Keys == (set p | p in a.peers)
    && forall p :: p in m ==> Answers(relayOn, m[p], p, a, from, rs)
  }

  lemma LookupOneAnswers(c: Config, peer: Str, a: Announcement, from: IpAddr, rs: Records, t: Tables, free: uint16)
    ensures var (e, t') := LookupOne(c, peer, a, from, rs, t, free);
            && (e.Some? ==> Answers(c.relayOn, e.value, peer, a, from, rs))
            && (!c.relayOn ==> e.Some? && t' == t)
  {
  }

  lemma {:induction false} LookupFirstAnswers(c: Config, n: nat, a: Announcement, from: IpAddr, rs: Records, t: Tables,
                            free: seq<uint16>)
    requires n <= |a.peers| == |free|
    ensures var (m, t') := LookupFirst(c, n, a, from, rs, t, free);
            && (m.Some? ==> m.value.Keys == (set p | p in a.peers[..n]))
            && (m.Some? ==> forall p :: p in m.value ==> Answers(c.relayOn, m.value[p], p, a, from, rs))
            && (!c.relayOn ==> m.Some? && t' == t)
  {
    if n > 0 {
      LookupFirstAnswers(c, n - 1, a, from, rs, t, free);
      LookupOneAnswers(c, a.peers[n - 1], a, from, rs, LookupFirst(c, n - 1, a, from, rs, t, free).1, free[n - 1]);
      assert a.peers[..n] == a.peers[..n - 1] + [a.peers[n - 1]];
    }
  }

  // An answer names exactly the requested peers, and says of each what the records say.
  lemma LookupAnswers(c: Config, a: Announcement, from: IpAddr, rs: Records, t: Tables, free: seq<uint16>)
    requires |a.peers| == |free|
    ensures var (m, t') := LookupAll(c, a, from, rs, t, free);
            && (m.Some? ==> AnswersAll(c.relayOn, m.value, a, from, rs))
            && (!c.relayOn ==> m.Some? && t' == t)
  {
    LookupFirstAnswers(c, |a.peers|, a, from, rs, t, free);
    assert a.peers[..|a.peers|] == a.peers;
  }

  // ---------- Store ----------

  function RecordFor(a: Announcement, ip: Ipv4Addr, stamp: Time): Record {
    Record(ip, a.ipv6, a.lanAddrs, a.wgPort, stamp, a.needsRelay)
  }

  // Every peer named gets a record, each stamped when it is written.
  function StoreFirst(rs: Records, n: nat, a: Announcement, ip: Ipv4Addr, stamps: seq<Time>): Records
    requires n <= |a.peers| == |stamps|
  {
    if n == 0 then rs
    else StoreFirst(rs, n - 1, a, ip, stamps)[(a.initiator, a.peers[n - 1]) := RecordFor(a, ip, stamps[n - 1])]
  }

  function StoreAll(rs: Records, a: Announcement, ip: Ipv4Addr, stamps: seq<Time>): Records
    requires |a.peers| == |stamps|
  {
    StoreFirst(rs, |a.peers|, a, ip, stamps)
  }

  function LastIndex<T(==)>(xs: seq<T>, x: T): (i: nat)
    requires x in xs
    ensures i < |xs| && xs[i] == x
    ensures forall j :: i < j < |xs| ==> xs[j] != x
  {
    if xs[|xs| - 1] == x then |xs| - 1 else LastIndex(xs[..|xs| - 1], x)
  }

  lemma {:induction false} StoreFirstAt(rs: Records, n: nat, a: Announcement, ip: Ipv4Addr, stamps: seq<Time>,
                                        k: (Str, Str))
    requires n <= |a.peers| == |stamps|
    ensures var rs' := StoreFirst(rs, n, a, ip, stamps);
            if k.0 == a.initiator && k.1 in a.peers[..n]
            then k in rs' && rs'[k] == RecordFor(a, ip, stamps[LastIndex(a.peers[..n], k.1)])
            else (k in rs' <==> k in rs) && (k in rs ==> rs'[k] == rs[k])
  {
    if n > 0 {
      StoreFirstAt(rs, n - 1, a, ip, stamps, k);
      assert a.peers[..n][..n - 1] == a.peers[..n - 1];
      assert a.peers[..n] == a.peers[..n - 1] + [a.peers[n - 1]];
    }
  }

  // A store writes the record of every named peer, with the stamp of its last mention, and
  // nothing else.
  lemma StoreAllAt(rs: Records, a: Announcement, ip: Ipv4Addr, stamps: seq<Time>, k: (Str, Str))
    requires |a.peers| == |stamps|
    ensures var rs' := StoreAll(rs, a, ip, stamps);
            if k.0 == a.initiator && k.1 in a.peers
            then k in rs' && rs'[k] == Record(ip, a.ipv6, a.lanAddrs, a.wgPort, stamps[LastIndex(a.peers, k.1)],
                                              a.needsRelay)
            else (k in rs' <==> k in rs) && (k in rs ==> rs'[k] == rs[k])
  {
    StoreFirstAt(rs, |a.peers|, a, ip, stamps, k);
    assert a.peers[..|a.peers|] == a.peers;
  }

  // ---------- Sweep ----------

  // A duration since a later time is an error, and an error drops the record.
  predicate Kept(now: Time, stamp: Time) {
    stamp <= now && now - stamp < RECORD_TIMEOUT
  }

  function SweepAll(rs: Records, now: Time): Records {
    map k | k in rs && Kept(now, rs[k].timestamp) :: rs[k]
  }

  // ---------- The directory object ----------

  class Storage {
    var peeringRecords: Records

    constructor ()
      ensures peeringRecords == map[]
    {
      peeringRecords := map[];
    }

    method GetPeerEndpoints(c: Config, a: Announcement, from: IpAddr, relays: RelayManager, free: seq<uint16>)
      returns (r: Option<Response>)
      requires |free| == |a.peers|
      modifies relays
      ensures (r, relays.Contents()) == LookupAll(c, a, from, peeringRecords, old(relays.Contents()), free)
      ensures r.Some? ==> AnswersAll(c.relayOn, r.value, a, from, peeringRecords)
    {
      LookupAnswers(c, a, from, peeringRecords, relays.Contents(), free);
      ghost var t := relays.Contents();
      var resPeers: Response := map[];
      for i := 0 to |a.peers|
        invariant LookupFirst(c, i, a, from, peeringRecords, t, free) == (Some(resPeers), relays.Contents())
      {
        LookupStep(c, i, a, from, peeringRecords, t, free);
        var endpoint := PeerEndpoint(c, a.peers[i], a, from, relays, free[i]);
        if endpoint.None? {
          NoneStaysNone(c, i + 1, |a.peers|, a, from, peeringRecords, t, free);
          return None;
        }
        resPeers := resPeers[a.peers[i] := endpoint.value];
      }
      return Some(resPeers);
    }

    // The body of the loop; None is the panic.
    method PeerEndpoint(c: Config, peer: Str, a: Announcement, from: IpAddr, relays: RelayManager, free: uint16)
      returns (r: Option<Endpoint>)
      modifies relays
      ensures (r, relays.Contents()) == LookupOne(c, peer, a, from, peeringRecords, old(relays.Contents()), free)
    {
      if (peer, a.initiator) in peeringRecords {
        var record := peeringRecords[(peer, a.initiator)];
        if from == V4(record.wanIpv4) {
          return Some(LocalNetwork(record.wanIpv6, record.lanAddrs, record.wgPort));
        } else if c.relayOn && (a.needsRelay || record.needsRelay) {
          var kind := relays.GetRelayPort(a.initiator, peer, from, free, c.bytes);
          return Some(Relay(1, Port(kind)));
        }
        return Some(RemoteNetwork(Some(record.wanIpv4), record.wanIpv6, record.wgPort));
      }
      if c.relayOn && a.needsRelay {
        var kind := relays.GetRelayPort(a.initiator, peer, from, free, c.bytes);
        return if kind.Established? then None else Some(Relay(1, Port(kind)));
      }
      return Some(Unknown);
    }

    // Fails, and stores nothing, when the announcing address is not IPv4. stamps are the clock
    // readings of the loop.
    method ProcessAnnouncement(a: Announcement, from: IpAddr, stamps: seq<Time>) returns (ok: bool)
      requires |stamps| == |a.peers|
      modifies this
      ensures ok == from.V4?
      ensures peeringRecords == if ok then StoreAll(old(peeringRecords), a, from.v4, stamps) else old(peeringRecords)
    {
      if from.V6? {
        return false;
      }
      for i := 0 to |a.peers|
        invariant peeringRecords == StoreFirst(old(peeringRecords), i, a, from.v4, stamps)
      {
        peeringRecords := peeringRecords[(a.initiator, a.peers[i]) := RecordFor(a, from.v4, stamps[i])];
      }
      return true;
    }

    // Drops exactly the records that are at least an hour old at now, or stamped after it.
    method RemoveOldRecords(now: Time)
      modifies this
      ensures peeringRecords == SweepAll(old(peeringRecords), now)
      ensures forall k :: k in old(peeringRecords) ==>
                (k !in peeringRecords <==>
                 || now - old(peeringRecords)[k].timestamp >= 3_600_000_000_000
                 || old(peeringRecords)[k].timestamp > now)
    {
      peeringRecords := map k | k in peeringRecords && Kept(now, peeringRecords[k].timestamp) :: peeringRecords[k];
    }
  }

  lemma {:induction false} NoneStaysNone(c: Config, i: nat, n: nat, a: Announcement, from: IpAddr, rs: Records,
                                         t: Tables,
                       free: seq<uint16>)
    requires i <= n <= |a.peers| == |free|
    requires LookupFirst(c, i, a, from, rs, t, free).0.None?
    ensures LookupFirst(c, n, a, from, rs, t, free) == LookupFirst(c, i, a, from, rs, t, free)
  {
    if i < n {
      NoneStaysNone(c, i, n - 1, a, from, rs, t, free);
    }
  }

}
