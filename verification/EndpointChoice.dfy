// Which address each kind of answer gives a peer, and exactly when an update of the device fails.
module EndpointChoice {
  import opened Wrappers
  import opened Net
  import opened Text
  import opened Protocol
  import opened OnLink
  import opened WgInterface

  // The peer's address j is on link with our address i, and no pair before that one is.
  ghost predicate FirstOnLink(ours: seq<IpNet>, peer: seq<IpNet>, i: nat, j: nat) {
    && Relates(ours, peer, (i, j))
    && forall p :: Relates(ours, peer, p) ==> i < p.0 || (i == p.0 && j <= p.1)
  }

  // A peer of this kind is sent to sa: to its IPv6 address when we have IPv6 too, and otherwise to
  // its first address on link with one of ours, to its IPv4 address or to the relay.
  ghost predicate Addresses(e: Endpoint, env: Env, sa: SocketAddr) {
    match e
    case Unknown => false
    case LocalNetwork(v6, lan, port) =>
      && sa.port == port
      && (if env.hasIpv6 && v6.Some? then sa.ip == V6(v6.value)
          else env.ours.Some? && exists i: nat, j: nat ::
                 FirstOnLink(env.ours.value, lan, i, j) && sa.ip == lan[j].Addr())
    case RemoteNetwork(v4, v6, port) =>
      && sa.port == port
      && (if env.hasIpv6 && v6.Some? then sa.ip == V6(v6.value) else v4.Some? && sa.ip == V4(v4.value))
    case Relay(_, port) => sa.port == port && env.relay == Some(sa.ip)
  }

  // An answer of this kind is an error in these surroundings.
  predicate Unusable(e: Endpoint, env: Env) {
    match e
    case RemoteNetwork(v4, v6, _) => v4.None? && (v6.None? || !env.hasIpv6)
    case Relay(_, _) => env.relay.None?
    case _ => false
  }

  lemma FirstCandidate(ours: seq<IpNet>, peer: seq<IpNet>)
    ensures forall i: nat, j: nat :: FirstOnLink(ours, peer, i, j) ==>
              Candidates(ours, peer) != [] && Candidates(ours, peer)[0] == peer[j]
    ensures Candidates(ours, peer) != [] ==>
              exists i: nat, j: nat :: FirstOnLink(ours, peer, i, j)
  {
    var pairs := CandidatesInOrder(ours, peer);
    if pairs != [] {
      var (i, j) := pairs[0];
      assert (i, j) in pairs;
      forall p | Relates(ours, peer, p) ensures i < p.0 || (i == p.0 && j <= p.1) {
        var m :| 0 <= m < |pairs| && pairs[m] == p;
        assert m > 0 ==> Precedes(pairs[0], pairs[m]);
      }
      assert FirstOnLink(ours, peer, i, j);
      forall i': nat, j': nat | FirstOnLink(ours, peer, i', j') ensures (i', j') == (i, j) {
        assert Relates(ours, peer, (i, j)) && Relates(ours, peer, (i', j'));
      }
    } else {
      forall i': nat, j': nat ensures !FirstOnLink(ours, peer, i', j') {
        assert (i', j') !in pairs;
      }
    }
  }

  // Each kind of endpoint is an address, an error or passed over.
  lemma TargetByKind(e: Endpoint, env: Env)
    ensures forall sa :: TargetOf(e, env) == To(sa) <==> Addresses(e, env, sa)
    ensures TargetOf(e, env) == Broken <==> Unusable(e, env)
    ensures TargetOf(e, env) == Skip <==> !Unusable(e, env) && forall sa :: !Addresses(e, env, sa)
  {
    forall sa ensures TargetOf(e, env) == To(sa) <==> Addresses(e, env, sa) {
      if e.LocalNetwork? && !(env.hasIpv6 && e.lipv6.Some?) {
        FirstCandidate(if env.ours.Some? then env.ours.value else [], e.lanAddrs);
      }
    }
    if TargetOf(e, env).To? {
      assert Addresses(e, env, TargetOf(e, env).sa);
    }
  }

  // The device is not given sa for k: k is not tracked, or the device is asked and refuses.
  predicate Blocked(w: Wg, env: Env, k: Key, sa: SocketAddr) {
    k !in w.tracker || (w.tracker[k].endpoint != Some(sa) && k in env.refused)
  }

  // This entry of an answer, met with the device and the cache at w, is an error.
  ghost predicate EntryFails(e: (Str, Endpoint), w: Wg, env: Env, parse: Str -> Option<Key>) {
    && parse(e.0).Some?
    && (Unusable(e.1, env) || exists sa :: Addresses(e.1, env, sa) && Blocked(w, env, parse(e.0).value, sa))
  }

  lemma EntryFailsMeans(e: (Str, Endpoint), w: Wg, env: Env, parse: Str -> Option<Key>)
    ensures Fails(e, w, env, parse) <==> EntryFails(e, w, env, parse)
  {
    TargetByKind(e.1, env);
  }

  // An answer with distinct keys fails exactly when one of its entries does by itself.
  lemma UpdateFailsExactly(w: Wg, entries: seq<(Str, Endpoint)>, env: Env, parse: Str -> Option<Key>)
    requires DistinctKeys(entries, parse)
    ensures UpdateAll(w, entries, env, parse).failed <==>
            exists e :: e in entries && EntryFails(e, w, env, parse)
  {
    UpdateSettles(w, entries, env, parse);
    forall e | e in entries ensures Fails(e, w, env, parse) <==> EntryFails(e, w, env, parse) {
      EntryFailsMeans(e, w, env, parse);
    }
  }

  // The answer sends peer k to sa.
  ghost predicate Sends(entries: seq<(Str, Endpoint)>, env: Env, parse: Str -> Option<Key>, k: Key, sa: SocketAddr) {
    exists e :: e in entries && parse(e.0) == Some(k) && Addresses(e.1, env, sa)
  }

  // And when it does not fail, each peer has the endpoint it is sent to, and the others are as before.
  lemma UpdateFollowsAddresses(w: Wg, entries: seq<(Str, Endpoint)>, env: Env, parse: Str -> Option<Key>)
    requires DistinctKeys(entries, parse) && !UpdateAll(w, entries, env, parse).failed
    ensures var o := UpdateAll(w, entries, env, parse);
            && (forall k, sa :: Sends(entries, env, parse, k, sa) ==> Put(w, o, k, sa))
            && (forall k :: (forall sa :: !Sends(entries, env, parse, k, sa)) ==> Untouched(w, o, k))
  {
    UpdateSettles(w, entries, env, parse);
    forall e | e in entries ensures forall sa :: TargetOf(e.1, env) == To(sa) <==> Addresses(e.1, env, sa) {
      TargetByKind(e.1, env);
    }
    forall k, sa ensures Sends(entries, env, parse, k, sa) <==> Wants(entries, env, parse, k, sa) {}
  }

  // The entries before the n-th cause no error, and the n-th does.
  ghost predicate StopsAt(w: Wg, entries: seq<(Str, Endpoint)>, env: Env, parse: Str -> Option<Key>, n: nat) {
    && n < |entries|
    && var o := UpdateAll(w, entries[..n], env, parse);
       !o.failed && EntryFails(entries[n], o.wg, env, parse)
  }

  lemma EntryEffect(o: Outcome, e: (Str, Endpoint), env: Env, parse: Str -> Option<Key>)
    requires !o.failed
    ensures UpdateEntry(o, e, env, parse).failed <==> EntryFails(e, o.wg, env, parse)
    ensures EntryFails(e, o.wg, env, parse) ==> UpdateEntry(o, e, env, parse).wg == o.wg
  {
    EntryFailsMeans(e, o.wg, env, parse);
  }

  // Whatever the keys, an update fails exactly when it meets an error, and then it leaves the device
  // and the cache as the entries before that one made them.
  lemma {:induction false} UpdateStopsAtFirstError(w: Wg, entries: seq<(Str, Endpoint)>, env: Env,
                                                   parse: Str -> Option<Key>)
    returns (n: nat)
    ensures var o := UpdateAll(w, entries, env, parse);
            if o.failed then StopsAt(w, entries, env, parse, n) && o.wg == UpdateAll(w, entries[..n], env, parse).wg
            else forall m: nat :: !StopsAt(w, entries, env, parse, m)
  {
    n := 0;
    if entries != [] {
      var last := |entries| - 1;
      n := UpdateStopsAtFirstError(w, entries[..last], env, parse);
      var o := UpdateAll(w, entries[..last], env, parse);
      if o.failed {
        assert entries[..last][..n] == entries[..n];
      } else {
        EntryEffect(o, entries[last], env, parse);
        forall m: nat | m < last ensures !StopsAt(w, entries, env, parse, m) {
          assert !StopsAt(w, entries[..last], env, parse, m) && entries[..last][..m] == entries[..m];
        }
        n := last;
      }
    }
  }

}
