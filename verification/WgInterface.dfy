// The client's side of the WireGuard device: which endpoint each peer is told to use, and which
// peers have gone quiet. The device is abstract: a listen port and, for each peer, an endpoint,
// a receive counter and whether it ever shook hands.
module WgInterface {
  import opened Wrappers
  import opened Net
  import opened Text
  import opened Protocol
  import opened OnLink

  type Key = b: Bytes | |b| == 32 witness seq(32, _ => 0)

  datatype PeerInfo = PeerInfo(key: Key, endpoint: Option<SocketAddr>, rx: nat, handshake: bool)

  datatype Tracked = Tracked(endpoint: Option<SocketAddr>, rx: nat)

  type Tracker = map<Key, Tracked>
  type Endpoints = map<Key, Option<SocketAddr>>

  // The device's endpoints and the client's cache of them.
  datatype Wg = Wg(device: Endpoints, tracker: Tracker)

  // ---------- Activity ----------

  // A sample counts as activity when it exceeds the one on record, or is the first.
  function UpdateTracked(t: Tracker, p: PeerInfo): (Tracker, bool) {
    if p.key in t then
      if p.rx > t[p.key].rx then (t[p.key := t[p.key].(rx := p.rx)], true) else (t, false)
    else (t[p.key := Tracked(p.endpoint, p.rx)], true)
  }

  function InitFirst(t: Tracker, peers: seq<PeerInfo>): Tracker {
    if peers == [] then t else UpdateTracked(InitFirst(t, peers[..|peers| - 1]), peers[|peers| - 1]).0
  }

  // A peer without a handshake is inactive, and its sample is not submitted.
  function Scan(t: Tracker, peers: seq<PeerInfo>): (Tracker, seq<Key>) {
    if peers == [] then (t, [])
    else
      var (t1, inactive) := Scan(t, peers[..|peers| - 1]);
      var p := peers[|peers| - 1];
      if !p.handshake then (t1, inactive + [p.key])
      else
        var (t2, active) := UpdateTracked(t1, p);
        (t2, if active then inactive else inactive + [p.key])
  }

  predicate DistinctPeers(peers: seq<PeerInfo>) {
    forall i, j :: 0 <= i < j < |peers| ==> peers[i].key != peers[j].key
  }

  predicate Quiet(t: Tracker, p: PeerInfo) {
    !p.handshake || (p.key in t && p.rx <= t[p.key].rx)
  }

  function QuietKeys(t: Tracker, peers: seq<PeerInfo>): seq<Key> {
    if peers == [] then []
    else QuietKeys(t, peers[..|peers| - 1]) + (if Quiet(t, peers[|peers| - 1]) then [peers[|peers| - 1].key] else [])
  }

  // A scan returns, in device order, exactly the peers that never shook hands or whose counter
  // has not passed the one on record before the scan; a peer not on record counts as active.
  lemma {:induction false} ScanFindsQuietPeers(t: Tracker, peers: seq<PeerInfo>)
    requires DistinctPeers(peers)
    ensures Scan(t, peers).1 == QuietKeys(t, peers)
    ensures forall k :: (forall p :: p in peers ==> p.key != k) ==>
              (k in Scan(t, peers).0 <==> k in t) && (k in t ==> Scan(t, peers).0[k] == t[k])
  {
    if peers != [] {
      var n := |peers| - 1;
      ScanFindsQuietPeers(t, peers[..n]);
      forall p | p in peers[..n] ensures p.key != peers[n].key && p in peers {}
      assert peers[n] in peers;
    }
  }

  // ---------- Choosing an endpoint ----------

  // What the client's surroundings contribute: whether it has IPv6, its own LAN addresses (None
  // when they cannot be read), the relay's address (None when it does not resolve) and the peers
  // whose update the device refuses.
  datatype Env = Env(hasIpv6: bool, ours: Option<seq<IpNet>>, relay: Option<IpAddr>, refused: set<Key>)

  datatype Target = Skip | To(sa: SocketAddr) | Broken

  function TargetOf(e: Endpoint, env: Env): Target {
    match e
    case Unknown => Skip
    case LocalNetwork(v6, lan, port) =>
      if env.hasIpv6 && v6.Some? then To(SocketAddr(V6(v6.value), port))
      else
        var c := Candidates(if env.ours.Some? then env.ours.value else [], lan);
        if c == [] then Skip else To(SocketAddr(c[0].Addr(), port))
    case RemoteNetwork(v4, v6, port) =>
      if env.hasIpv6 && v6.Some? then To(SocketAddr(V6(v6.value), port))
      else if v4.Some? then To(SocketAddr(V4(v4.value), port))
      else Broken
    case Relay(_, port) =>
      if env.relay.Some? then To(SocketAddr(env.relay.value, port)) else Broken
  }

  datatype Outcome = Outcome(wg: Wg, updated: seq<Key>, failed: bool)

  // None is an error: the peer is not tracked, or the device refuses.
  function UpdateOne(w: Wg, key: Key, sa: SocketAddr, env: Env): Option<(Wg, bool)> {
    if key !in w.tracker then None
    else if w.tracker[key].endpoint == Some(sa) then Some((w, false))
    else if key in env.refused then None
    else Some((Wg(w.device[key := Some(sa)], w.tracker[key := w.tracker[key].(endpoint := Some(sa))]), true))
  }

  // One entry of the answer. A key that does not parse is passed over.
  function UpdateEntry(o: Outcome, e: (Str, Endpoint), env: Env, parse: Str -> Option<Key>): Outcome {
    if parse(e.0).None? then o
    else
      match TargetOf(e.1, env)
      case Skip => o
      case Broken => o.(failed := true)
      case To(sa) =>
        (match UpdateOne(o.wg, parse(e.0).value, sa, env)
         case None => o.(failed := true)
         case Some((w, changed)) => Outcome(w, if changed then o.updated + [parse(e.0).value] else o.updated, false))
  }

  // The entries in turn, up to the first error.
  function UpdateAll(w: Wg, entries: seq<(Str, Endpoint)>, env: Env, parse: Str -> Option<Key>): Outcome {
    if entries == [] then Outcome(w, [], false)
    else
      var o := UpdateAll(w, entries[..|entries| - 1], env, parse);
      if o.failed then o else UpdateEntry(o, entries[|entries| - 1], env, parse)
  }

  // ---------- What an update means ----------

  ghost predicate Wants(entries: seq<(Str, Endpoint)>, env: Env, parse: Str -> Option<Key>, k: Key, sa: SocketAddr) {
    exists e :: e in entries && parse(e.0) == Some(k) && TargetOf(e.1, env) == To(sa)
  }

  predicate Fails(e: (Str, Endpoint), w: Wg, env: Env, parse: Str -> Option<Key>) {
    && parse(e.0).Some?
    && (TargetOf(e.1, env).Broken?
        || (TargetOf(e.1, env).To? && UpdateOne(w, parse(e.0).value, TargetOf(e.1, env).sa, env).None?))
  }

  ghost predicate DistinctKeys(entries: seq<(Str, Endpoint)>, parse: Str -> Option<Key>) {
    forall i, j :: 0 <= i < j < |entries| ==> parse(entries[i].0).None? || parse(entries[i].0) != parse(entries[j].0)
  }

  // Key k now has endpoint sa: in the cache, and in the device unless the cache already said so.
  ghost predicate Put(w: Wg, o: Outcome, k: Key, sa: SocketAddr) {
    && k in w.tracker && k in o.wg.tracker
    && o.wg.tracker[k] == w.tracker[k].(endpoint := Some(sa))
    && (k in o.updated <==> w.tracker[k].endpoint != Some(sa))
    && (if w.tracker[k].endpoint != Some(sa) then k in o.wg.device && o.wg.device[k] == Some(sa)
        else (k in o.wg.device <==> k in w.device) && (k in w.device ==> o.wg.device[k] == w.device[k]))
  }

  ghost predicate Untouched(w: Wg, o: Outcome, k: Key) {
    && k !in o.updated
    && (k in o.wg.tracker <==> k in w.tracker) && (k in w.tracker ==> o.wg.tracker[k] == w.tracker[k])
    && (k in o.wg.device <==> k in w.device) && (k in w.device ==> o.wg.device[k] == w.device[k])
  }

  // The state that entries without errors lead to, key by key, from what they want.
  ghost predicate Settled(w: Wg, entries: seq<(Str, Endpoint)>, env: Env, parse: Str -> Option<Key>, o: Outcome) {
    && (forall k, sa :: Wants(entries, env, parse, k, sa) ==> Put(w, o, k, sa))
    && (forall k :: (forall sa :: !Wants(entries, env, parse, k, sa)) ==> Untouched(w, o, k))
    && (forall i, j :: 0 <= i < j < |o.updated| ==> o.updated[i] != o.updated[j])
  }

  lemma WantsExtends(entries: seq<(Str, Endpoint)>, e: (Str, Endpoint), env: Env, parse: Str -> Option<Key>)
    ensures forall k, sa :: Wants(entries + [e], env, parse, k, sa) <==>
              Wants(entries, env, parse, k, sa) || (parse(e.0) == Some(k) && TargetOf(e.1, env) == To(sa))
  {
  }

  // With distinct keys, an update fails exactly when one of its entries by itself would, and
  // otherwise settles everything the entries want.
  lemma {:induction false} UpdateSettles(w: Wg, entries: seq<(Str, Endpoint)>, env: Env, parse: Str -> Option<Key>)
    requires DistinctKeys(entries, parse)
    ensures var o := UpdateAll(w, entries, env, parse);
            && (o.failed <==> exists e :: e in entries && Fails(e, w, env, parse))
            && (!o.failed ==> Settled(w, entries, env, parse, o))
  {
    if entries != [] {
      var n := |entries| - 1;
      var past, e := entries[..n], entries[n];
      UpdateSettles(w, past, env, parse);
      assert entries == past + [e] && e in entries;
      assert forall x :: x in past ==> x in entries;
      var o := UpdateAll(w, past, env, parse);
      if !o.failed {
        WantsExtends(past, e, env, parse);
        EntrySettles(w, past, e, env, parse, o);
      }
    }
  }

  lemma EntrySettles(w: Wg, past: seq<(Str, Endpoint)>, e: (Str, Endpoint), env: Env, parse: Str -> Option<Key>,
                     o: Outcome)
    requires DistinctKeys(past + [e], parse) && Settled(w, past, env, parse, o) && !o.failed
    requires forall k, sa :: Wants(past + [e], env, parse, k, sa) <==>
               Wants(past, env, parse, k, sa) || (parse(e.0) == Some(k) && TargetOf(e.1, env) == To(sa))
    ensures var o' := UpdateEntry(o, e, env, parse);
            && (o'.failed <==> Fails(e, w, env, parse))
            && (!o'.failed ==> Settled(w, past + [e], env, parse, o'))
  {
    if parse(e.0).Some? && TargetOf(e.1, env).To? {
      var k, sa := parse(e.0).value, TargetOf(e.1, env).sa;
      forall s ensures !Wants(past, env, parse, k, s) {
        forall x | x in past ensures parse(x.0) != Some(k) {
          var i :| 0 <= i < |past| && past[i] == x;
          assert (past + [e])[i] == x && (past + [e])[|past|] == e;
        }
      }
      assert Untouched(w, o, k);
      var o' := UpdateEntry(o, e, env, parse);
      if !o'.failed {
        TargetSettles(w, past, env, parse, o, k, sa, past + [e]);
      }
    }
  }

  // The outcome after key k was sent to sa.
  function Sent(o: Outcome, k: Key, sa: SocketAddr): Outcome
    requires k in o.wg.tracker
  {
    if o.wg.tracker[k].endpoint == Some(sa) then o.(failed := false)
    else Outcome(Wg(o.wg.device[k := Some(sa)], o.wg.tracker[k := o.wg.tracker[k].(endpoint := Some(sa))]),
    o.updated + [k], false)
  }

  lemma SentKeepsOthers(w: Wg, o: Outcome, k: Key, sa: SocketAddr, x: Key, s: SocketAddr)
    requires k in o.wg.tracker && x != k
    ensures Put(w, o, x, s) ==> Put(w, Sent(o, k, sa), x, s)
    ensures Untouched(w, o, x) ==> Untouched(w, Sent(o, k, sa), x)
  {
  }

  lemma SentPuts(w: Wg, o: Outcome, k: Key, sa: SocketAddr)
    requires k in w.tracker && Untouched(w, o, k)
    ensures Put(w, Sent(o, k, sa), k, sa)
  {
  }

  lemma TargetSettles(w: Wg, past: seq<(Str, Endpoint)>, env: Env, parse: Str -> Option<Key>, o: Outcome, k: Key,
                      sa: SocketAddr,
                      all: seq<(Str, Endpoint)>)
    requires Settled(w, past, env, parse, o) && (forall s :: !Wants(past, env, parse, k, s))
    requires k in w.tracker && Untouched(w, o, k)
    requires forall k', s :: Wants(all, env, parse, k', s) <==> Wants(past, env, parse, k', s) || (k' == k && s == sa)
    ensures Settled(w, all, env, parse, Sent(o, k, sa))
  {
    SentPuts(w, o, k, sa);
    forall x, s | x != k
      ensures Put(w, o, x, s) ==> Put(w, Sent(o, k, sa), x, s)
      ensures Untouched(w, o, x) ==> Untouched(w, Sent(o, k, sa), x)
    {
      SentKeepsOthers(w, o, k, sa, x, s);
    }
    forall x | forall s :: !Wants(all, env, parse, x, s) ensures Untouched(w, Sent(o, k, sa), x) {
      assert Wants(all, env, parse, k, sa);
      assert x != k;
      SentKeepsOthers(w, o, k, sa, x, sa);
    }
  }

  // The answer is a hash map, and its order is arbitrary: when key texts parse injectively, every
  // order fails or succeeds alike, and when it succeeds leads to the same device, the same cache
  // and the same set of updated peers.
  lemma UpdateIsOrderIndependent(w: Wg, p: seq<(Str, Endpoint)>, q: seq<(Str, Endpoint)>, env: Env,
                                 parse: Str -> Option<Key>)
    requires DistinctKeys(p, parse) && DistinctKeys(q, parse)
    requires forall e :: e in p <==> e in q
    ensures var a, b := UpdateAll(w, p, env, parse), UpdateAll(w, q, env, parse);
            && a.failed == b.failed
            && (!a.failed ==> a.wg == b.wg && (forall k :: k in a.updated <==> k in b.updated))
  {
    UpdateSettles(w, p, env, parse);
    UpdateSettles(w, q, env, parse);
    var a, b := UpdateAll(w, p, env, parse), UpdateAll(w, q, env, parse);
    forall k, sa ensures Wants(p, env, parse, k, sa) <==> Wants(q, env, parse, k, sa) {}
    if !a.failed {
      forall k ensures SameAt(a, b, k) {
        SettledAlike(w, p, q, env, parse, a, b, k);
      }
      SameEverywhere(a, b);
    }
  }

  lemma SameEverywhere(a: Outcome, b: Outcome)
    requires forall k :: SameAt(a, b, k)
    ensures a.wg == b.wg && forall k :: k in a.updated <==> k in b.updated
  {
    forall k
      ensures k in a.updated <==> k in b.updated
      ensures k in a.wg.device <==> k in b.wg.device
      ensures k in a.wg.device ==> a.wg.device[k] == b.wg.device[k]
      ensures k in a.wg.tracker <==> k in b.wg.tracker
      ensures k in a.wg.tracker ==> a.wg.tracker[k] == b.wg.tracker[k]
    {
      assert SameAt(a, b, k);
    }
    assert a.wg.device == b.wg.device;
    assert a.wg.tracker == b.wg.tracker;
  }

  ghost predicate SameAt(a: Outcome, b: Outcome, k: Key) {
    && (k in a.updated <==> k in b.updated)
    && (k in a.wg.device <==> k in b.wg.device) && (k in a.wg.device ==> a.wg.device[k] == b.wg.device[k])
    && (k in a.wg.tracker <==> k in b.wg.tracker) && (k in a.wg.tracker ==> a.wg.tracker[k] == b.wg.tracker[k])
  }

  lemma SettledAlike(w: Wg, p: seq<(Str, Endpoint)>, q: seq<(Str, Endpoint)>, env: Env, parse: Str -> Option<Key>,
                     a: Outcome, b: Outcome, k: Key)
    requires Settled(w, p, env, parse, a) && Settled(w, q, env, parse, b)
    requires forall sa :: Wants(p, env, parse, k, sa) <==> Wants(q, env, parse, k, sa)
    ensures SameAt(a, b, k)
  {
    if sa :| Wants(p, env, parse, k, sa) {
      assert Put(w, a, k, sa) && Put(w, b, k, sa);
    } else {
      assert Untouched(w, a, k) && Untouched(w, b, k);
    }
  }

  // Repeating a successful update in the same surroundings changes nothing and reports no peer.
  lemma UpdateIsIdempotent(w: Wg, p: seq<(Str, Endpoint)>, q: seq<(Str, Endpoint)>, env: Env, parse: Str -> Option<Key>)
    requires DistinctKeys(p, parse) && DistinctKeys(q, parse)
    requires forall e :: e in p <==> e in q
    requires !UpdateAll(w, p, env, parse).failed
    ensures var w' := UpdateAll(w, p, env, parse).wg;
            UpdateAll(w', q, env, parse) == Outcome(w', [], false)
  {
    UpdateSettles(w, p, env, parse);
    var w' := UpdateAll(w, p, env, parse).wg;
    forall e | e in q && parse(e.0).Some?
      ensures !TargetOf(e.1, env).Broken?
      ensures TargetOf(e.1, env).To? ==>
                parse(e.0).value in w'.tracker && w'.tracker[parse(e.0).value].endpoint == Some(TargetOf(e.1, env).sa)
    {
      assert e in p && !Fails(e, w, env, parse);
      if TargetOf(e.1, env).To? {
        assert Wants(p, env, parse, parse(e.0).value, TargetOf(e.1, env).sa);
      }
    }
    NothingToDo(w', q, env, parse);
  }

  lemma {:induction false} NothingToDo(w: Wg, q: seq<(Str, Endpoint)>, env: Env, parse: Str -> Option<Key>)
    requires forall e :: e in q && parse(e.0).Some? ==>
               && !TargetOf(e.1, env).Broken?
               && (TargetOf(e.1, env).To? ==>
                     parse(e.0).value in w.tracker
                         && w.tracker[parse(e.0).value].endpoint == Some(TargetOf(e.1, env).sa))
    ensures UpdateAll(w, q, env, parse) == Outcome(w, [], false)
  {
    if q != [] {
      assert q[|q| - 1] in q && forall e :: e in q[..|q| - 1] ==> e in q;
      NothingToDo(w, q[..|q| - 1], env, parse);
    }
  }

  // ---------- The cache and the device ----------

  // The cache says of every tracked peer what the device says.
  ghost predicate Coherent(w: Wg) {
    forall k :: k in w.tracker ==> k in w.device && w.device[k] == w.tracker[k].endpoint
  }

  // An update makes the device use what an entry wants exactly when the cache did not already
  // hold it, or held it rightly: an endpoint that the kernel has moved away from meanwhile is
  // not set again. With a coherent cache the device always follows.
  lemma DeviceFollowsUnlessRoamed(w: Wg, entries: seq<(Str, Endpoint)>, env: Env, parse: Str -> Option<Key>, k: Key,
                                  sa: SocketAddr)
    requires DistinctKeys(entries, parse) && !UpdateAll(w, entries, env, parse).failed
    requires Wants(entries, env, parse, k, sa)
    ensures var w' := UpdateAll(w, entries, env, parse).wg;
            && k in w.tracker && k in w'.tracker && w'.tracker[k].endpoint == Some(sa)
            && (k in w'.device && w'.device[k] == Some(sa) <==>
                w.tracker[k].endpoint != Some(sa) || (k in w.device && w.device[k] == Some(sa)))
            && (Coherent(w) ==> k in w'.device && w'.device[k] == Some(sa))
  {
    UpdateSettles(w, entries, env, parse);
  }

  // ---------- Whole runs ----------

  // What the client does to device and cache. peers is what the device shows at that moment.
  datatype Op =
    | Init(peers: seq<PeerInfo>)
    | Inactive(peers: seq<PeerInfo>)
    | Update(entries: seq<(Str, Endpoint)>, env: Env)

  predicate Shows(device: Endpoints, peers: seq<PeerInfo>) {
    && DistinctPeers(peers)
    && (forall p :: p in peers ==> p.key in device && p.endpoint == device[p.key])
  }

  function Do(w: Wg, op: Op, parse: Str -> Option<Key>): Wg {
    match op
    case Init(peers) => w.(tracker := InitFirst(w.tracker, peers))
    case Inactive(peers) => w.(tracker := Scan(w.tracker, peers).0)
    case Update(entries, env) => UpdateAll(w, entries, env, parse).wg
  }

  function DoAll(w: Wg, ops: seq<Op>, parse: Str -> Option<Key>): Wg {
    if ops == [] then w else Do(DoAll(w, ops[..|ops| - 1], parse), ops[|ops| - 1], parse)
  }

  // Every scan sees the device as the operations before it left it: nothing else moves endpoints.
  predicate Undisturbed(w: Wg, ops: seq<Op>, parse: Str -> Option<Key>) {
    ops == [] ||
    (&& Undisturbed(w, ops[..|ops| - 1], parse)
     && (!ops[|ops| - 1].Update? ==> Shows(DoAll(w, ops[..|ops| - 1], parse).device, ops[|ops| - 1].peers)))
  }

  lemma {:induction false} InitKeepsCoherence(w: Wg, peers: seq<PeerInfo>)
    requires Coherent(w) && Shows(w.device, peers)
    ensures Coherent(w.(tracker := InitFirst(w.tracker, peers)))
  {
    if peers != [] {
      var n := |peers| - 1;
      assert peers[n] in peers && forall p :: p in peers[..n] ==> p in peers;
      InitKeepsCoherence(w, peers[..n]);
    }
  }

  lemma {:induction false} ScanKeepsCoherence(w: Wg, peers: seq<PeerInfo>)
    requires Coherent(w) && Shows(w.device, peers)
    ensures Coherent(w.(tracker := Scan(w.tracker, peers).0))
  {
    if peers != [] {
      var n := |peers| - 1;
      assert peers[n] in peers && forall p :: p in peers[..n] ==> p in peers;
      ScanKeepsCoherence(w, peers[..n]);
    }
  }

  lemma {:induction false} UpdateKeepsCoherence(w: Wg, entries: seq<(Str, Endpoint)>, env: Env,
                                                parse: Str -> Option<Key>)
    requires Coherent(w)
    ensures Coherent(UpdateAll(w, entries, env, parse).wg)
  {
    if entries != [] {
      UpdateKeepsCoherence(w, entries[..|entries| - 1], env, parse);
    }
  }

  // As long as only the client moves endpoints, its cache agrees with the device after any
  // sequence of scans and updates, updates that stop at an error included.
  lemma {:induction false} CacheStaysCoherent(w: Wg, ops: seq<Op>, parse: Str -> Option<Key>)
    requires Coherent(w) && Undisturbed(w, ops, parse)
    ensures Coherent(DoAll(w, ops, parse))
  {
    if ops != [] {
      var n := |ops| - 1;
      CacheStaysCoherent(w, ops[..n], parse);
      var w1 := DoAll(w, ops[..n], parse);
      match ops[n]
      case Init(peers) => InitKeepsCoherence(w1, peers);
      case Inactive(peers) => ScanKeepsCoherence(w1, peers);
      case Update(entries, env) => UpdateKeepsCoherence(w1, entries, env, parse);
    }
  }

  // The samples that operations submit to the tracker.
  function Samples(op: Op): set<(Key, nat)> {
    match op
    case Init(peers) => set p | p in peers :: (p.key, p.rx)
    case Inactive(peers) => set p | p in peers && p.handshake :: (p.key, p.rx)
    case Update(_, _) => {}
  }

  function AllSamples(ops: seq<Op>): set<(Key, nat)> {
    if ops == [] then {} else AllSamples(ops[..|ops| - 1]) + Samples(ops[|ops| - 1])
  }

  // t records for every key the largest of its samples, and no key without samples.
  ghost predicate RunningMaximum(t: Tracker, samples: set<(Key, nat)>) {
    && (forall k :: k in t ==> (k, t[k].rx) in samples)
    && (forall s :: s in samples ==> s.0 in t && s.1 <= t[s.0].rx)
  }

  lemma SampleRaisesMaximum(t: Tracker, p: PeerInfo, samples: set<(Key, nat)>)
    requires RunningMaximum(t, samples)
    ensures RunningMaximum(UpdateTracked(t, p).0, samples + {(p.key, p.rx)})
  {
  }

  lemma {:induction false} InitIsMaximum(t: Tracker, peers: seq<PeerInfo>, samples: set<(Key, nat)>)
    requires RunningMaximum(t, samples)
    ensures RunningMaximum(InitFirst(t, peers), samples + Samples(Init(peers)))
  {
    if peers != [] {
      var n := |peers| - 1;
      InitIsMaximum(t, peers[..n], samples);
      SampleRaisesMaximum(InitFirst(t, peers[..n]), peers[n], samples + Samples(Init(peers[..n])));
      assert peers == peers[..n] + [peers[n]];
      assert samples + Samples(Init(peers)) == samples + Samples(Init(peers[..n])) + {(peers[n].key, peers[n].rx)};
    } else {
      assert samples + Samples(Init(peers)) == samples;
    }
  }

  lemma {:induction false} ScanIsMaximum(t: Tracker, peers: seq<PeerInfo>, samples: set<(Key, nat)>)
    requires RunningMaximum(t, samples)
    ensures RunningMaximum(Scan(t, peers).0, samples + Samples(Inactive(peers)))
  {
    if peers != [] {
      var n := |peers| - 1;
      ScanIsMaximum(t, peers[..n], samples);
      assert peers == peers[..n] + [peers[n]];
      if peers[n].handshake {
        SampleRaisesMaximum(Scan(t, peers[..n]).0, peers[n], samples + Samples(Inactive(peers[..n])));
        assert samples + Samples(Inactive(peers))
            == samples + Samples(Inactive(peers[..n])) + {(peers[n].key, peers[n].rx)};
      } else {
        assert samples + Samples(Inactive(peers)) == samples + Samples(Inactive(peers[..n]));
      }
    } else {
      assert samples + Samples(Inactive(peers)) == samples;
    }
  }

  lemma {:induction false} UpdateKeepsCounters(w: Wg, entries: seq<(Str, Endpoint)>, env: Env,
                                               parse: Str -> Option<Key>)
    ensures var t := UpdateAll(w, entries, env, parse).wg.tracker;
            t.Keys == w.tracker.Keys && forall k :: k in t ==> t[k].rx == w.tracker[k].rx
  {
    if entries != [] {
      UpdateKeepsCounters(w, entries[..|entries| - 1], env, parse);
    }
  }

  // Over every sequence of operations, the counter on record for a peer is the largest sample
  // ever submitted for it; with ScanFindsQuietPeers, a peer that shook hands is reported
  // inactive exactly when its counter does not exceed every sample before.
  lemma {:induction false} CountersAreRunningMaxima(w: Wg, ops: seq<Op>, parse: Str -> Option<Key>)
    requires w.tracker == map[]
    ensures RunningMaximum(DoAll(w, ops, parse).tracker, AllSamples(ops))
  {
    if ops != [] {
      var n := |ops| - 1;
      CountersAreRunningMaxima(w, ops[..n], parse);
      var w1 := DoAll(w, ops[..n], parse);
      match ops[n]
      case Init(peers) => InitIsMaximum(w1.tracker, peers, AllSamples(ops[..n]));
      case Inactive(peers) => ScanIsMaximum(w1.tracker, peers, AllSamples(ops[..n]));
      case Update(entries, env) => UpdateKeepsCounters(w1, entries, env, parse);
    }
  }

}
