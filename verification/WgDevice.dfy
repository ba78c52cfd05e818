// The client's operations on the device and on its tracker, in place, held to WgInterface.
module WgDevice {
  import opened Wrappers
  import opened Net
  import opened Text
  import opened Protocol
  import opened Postcard
  import opened OnLink
  import opened WgInterface

  class Device {
    var listenPort: uint16
    var order: seq<Key>
    var endpoints: Endpoints
    var rx: map<Key, nat>
    var shaken: set<Key>

    ghost predicate Valid()
      reads this
    {
      && (forall i, j :: 0 <= i < j < |order| ==> order[i] != order[j])
      && (forall k :: k in order <==> k in endpoints)
      && (forall k :: k in order ==> k in rx)
    }

    constructor (listenPort: uint16)
      ensures Valid() && endpoints == map[] && this.listenPort == listenPort
    {
      this.listenPort, order, endpoints, rx, shaken := listenPort, [], map[], map[], {};
    }

    // What reading the device shows, in its order.
    function Peers(): (ps: seq<PeerInfo>)
      requires Valid()
      reads this
      ensures |ps| == |order|
      ensures forall i :: 0 <= i < |ps| ==>
                && ps[i].key == order[i] && order[i] in endpoints && order[i] in rx
                && ps[i].endpoint == endpoints[order[i]]
                && ps[i].rx == rx[order[i]] && (ps[i].handshake <==> order[i] in shaken)
      ensures Shows(endpoints, ps)
    {
      var ps := seq(|order|, i requires 0 <= i < |order| reads this
                             requires order[i] in endpoints && order[i] in rx =>
                             PeerInfo(order[i], endpoints[order[i]], rx[order[i]], order[i] in shaken));
      ps
    }

    // Adds the peer when it is not there yet. Fails as a whole or not at all.
    method SetEndpoint(key: Key, sa: SocketAddr, refused: set<Key>) returns (ok: bool)
      requires Valid()
      modifies `order, `endpoints, `rx
      ensures Valid() && ok == (key !in refused)
      ensures endpoints == if ok then old(endpoints)[key := Some(sa)] else old(endpoints)
      ensures key in old(endpoints) || !ok ==> order == old(order) && rx == old(rx)
    {
      if key in refused {
        return false;
      }
      if key !in endpoints {
        order, rx := order + [key], rx[key := 0];
      }
      endpoints := endpoints[key := Some(sa)];
      return true;
    }
  }

  class PeerTracker {
    var peers: Tracker

    constructor ()
      ensures peers == map[]
    {
      peers := map[];
    }

    method Update(peer: PeerInfo) returns (active: bool)
      modifies this
      ensures (peers, active) == UpdateTracked(old(peers), peer)
    {
      if peer.key in peers {
        var info := peers[peer.key];
        if peer.rx > info.rx {
          peers := peers[peer.key := info.(rx := peer.rx)];
          return true;
        }
        return false;
      }
      peers := peers[peer.key := Tracked(peer.endpoint, peer.rx)];
      return true;
    }
  }

  method InitPeersActivity(device: Device, tracker: PeerTracker)
    requires device.Valid()
    modifies tracker
    ensures tracker.peers == InitFirst(old(tracker.peers), device.Peers())
  {
    var ps := device.Peers();
    for i := 0 to |ps|
      invariant tracker.peers == InitFirst(old(tracker.peers), ps[..i])
    {
      assert ps[..i + 1][..i] == ps[..i];
      var _ := tracker.Update(ps[i]);
    }
    assert ps[..|ps|] == ps;
  }

  method GetInactivePeersByRx(device: Device, tracker: PeerTracker) returns (inactive: seq<Key>)
    requires device.Valid()
    modifies tracker
    ensures (tracker.peers, inactive) == Scan(old(tracker.peers), device.Peers())
    ensures inactive == QuietKeys(old(tracker.peers), device.Peers())
  {
    var ps := device.Peers();
    inactive := [];
    for i := 0 to |ps|
      invariant (tracker.peers, inactive) == Scan(old(tracker.peers), ps[..i])
    {
      assert ps[..i + 1][..i] == ps[..i];
      if !ps[i].handshake {
        inactive := inactive + [ps[i].key];
      } else {
        var active := tracker.Update(ps[i]);
        if !active {
          inactive := inactive + [ps[i].key];
        }
      }
    }
    assert ps[..|ps|] == ps;
    ScanFindsQuietPeers(old(tracker.peers), ps);
  }

  method UpdatePeer(device: Device, tracker: PeerTracker, key: Key, sa: SocketAddr, env: Env) returns (r: Option<bool>)
    requires device.Valid()
    modifies device, tracker
    ensures device.Valid()
    ensures match UpdateOne(Wg(old(device.endpoints), old(tracker.peers)), key, sa, env)
            case None => r == None && device.endpoints == old(device.endpoints) && tracker.peers == old(tracker.peers)
            case Some((w, changed)) => r == Some(changed) && Wg(device.endpoints, tracker.peers) == w
  {
    if key !in tracker.peers {
      return None;
    }
    var current := tracker.peers[key].endpoint;
    if current.Some? && current.value == sa {
      return Some(false);
    }
    var ok := device.SetEndpoint(key, sa, env.refused);
    if !ok {
      return None;
    }
    tracker.peers := tracker.peers[key := tracker.peers[key].(endpoint := Some(sa))];
    return Some(true);
  }

  // One entry of the answer: None is an error, otherwise whether the peer was moved.
  method ApplyEntry(device: Device, tracker: PeerTracker, key: Key, endpoint: Endpoint, env: Env)
    returns (r: Option<bool>)
    requires device.Valid()
    modifies device, tracker
    ensures device.Valid()
    ensures var before, after := Wg(old(device.endpoints), old(tracker.peers)), Wg(device.endpoints, tracker.peers);
            match TargetOf(endpoint, env)
            case Skip => r == Some(false) && after == before
            case Broken => r == None && after == before
            case To(sa) => (match UpdateOne(before, key, sa, env)
                            case None => r == None && after == before
                            case Some((w, changed)) => r == Some(changed) && after == w)
  {
    match endpoint {
      case Unknown => return Some(false);
      case LocalNetwork(v6, lan, port) =>
        var ip: IpAddr;
        if env.hasIpv6 && v6.Some? {
          ip := V6(v6.value);
        } else {
          var candidates := FindLanCandidates(env.ours, lan);
          if candidates == [] {
            return Some(false);
          }
          ip := candidates[0].Addr();
        }
        r := UpdatePeer(device, tracker, key, SocketAddr(ip, port), env);
      case RemoteNetwork(v4, v6, port) =>
        var ip: IpAddr;
        if env.hasIpv6 && v6.Some? {
          ip := V6(v6.value);
        } else if v4.Some? {
          ip := V4(v4.value);
        } else {
          return None;
        }
        r := UpdatePeer(device, tracker, key, SocketAddr(ip, port), env);
      case Relay(_, port) =>
        if env.relay.None? {
          return None;
        }
        r := UpdatePeer(device, tracker, key, SocketAddr(env.relay.value, port), env);
    }
  }

  // The answer's entries come in some order of the hash map; None is an error on the way.
  method UpdatePeers(device: Device, tracker: PeerTracker, answer: Response, env: Env, parse: Str -> Option<Key>)
    returns (r: Option<seq<Key>>, ghost order: seq<(Str, Endpoint)>)
    requires device.Valid()
    modifies device, tracker
    ensures device.Valid() && Enumerates(order, answer)
    ensures var o := UpdateAll(Wg(old(device.endpoints), old(tracker.peers)), order, env, parse);
            && Wg(device.endpoints, tracker.peers) == o.wg
            && r == if o.failed then None else Some(o.updated)
  {
    var entries := Entries(answer);
    order := entries;
    ghost var before := Wg(device.endpoints, tracker.peers);
    var updated: seq<Key> := [];
    for i := 0 to |entries|
      invariant device.Valid()
      invariant UpdateAll(before, entries[..i], env, parse)
          == Outcome(Wg(device.endpoints, tracker.peers), updated, false)
    {
      assert entries[..i + 1][..i] == entries[..i];
      var key := parse(entries[i].0);
      if key.Some? {
        var changed := ApplyEntry(device, tracker, key.value, entries[i].1, env);
        if changed.None? {
          FailureStays(before, entries, i + 1, env, parse);
          return None, entries;
        }
        if changed.value {
          updated := updated + [key.value];
        }
      }
    }
    assert entries[..|entries|] == entries;
    return Some(updated), entries;
  }

  lemma {:induction false} FailureStays(w: Wg, entries: seq<(Str, Endpoint)>, i: nat, env: Env,
                                        parse: Str -> Option<Key>)
    requires i <= |entries| && UpdateAll(w, entries[..i], env, parse).failed
    ensures UpdateAll(w, entries, env, parse) == UpdateAll(w, entries[..i], env, parse)
  {
    if i < |entries| {
      assert entries[..|entries| - 1][..i] == entries[..i];
      FailureStays(w, entries[..|entries| - 1], i, env, parse);
    } else {
      assert entries[..i] == entries;
    }
  }

}
