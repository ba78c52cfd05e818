// What a lookup asks of the relay manager, and what ports it hands out.
module RelayLookup {
  import opened Wrappers
  import opened Net
  import opened Text
  import opened Protocol
  import opened RelayPorts
  import opened Peering

  // ---------- The relay manager ----------

  // The smaller key comes first: the one with the smaller byte where they first differ.
  lemma {:induction false} FirstDifferenceDecides(a: Bytes, b: Bytes, i: nat)
    requires |a| == |b| && i < |a| && a[..i] == b[..i] && a[i] < b[i]
    ensures LexLeq(a, b) && !LexLeq(b, a)
  {
    if i > 0 {
      assert a[0] == a[..i][0] && b[0] == b[..i][0];
      assert a[1..][..i - 1] == a[..i][1..] && b[1..][..i - 1] == b[..i][1..];
      FirstDifferenceDecides(a[1..], b[1..], i - 1);
    }
  }

  lemma SmallerKeyFirst(a: KeyBytes, b: KeyBytes, i: nat)
    requires i < 32 && a[..i] == b[..i] && a[i] < b[i]
    ensures Normalized(a, b) == a + b && Normalized(b, a) == a + b
  {
    FirstDifferenceDecides(a, b, i);
  }

  // An established relay serves both directions, whatever else is on record, and a pending one its
  // own; neither changes anything.
  lemma EstablishedServesBoth(t: Tables, a: Str, b: Str, free: uint16, bytes: Str -> KeyBytes)
    requires Normalized(bytes(a), bytes(b)) in t.established
    ensures var port := t.established[Normalized(bytes(a), bytes(b))];
            && Ask(t, Call(a, b, free), bytes) == (t, Established(port))
            && Ask(t, Call(b, a, free), bytes) == (t, Established(port))
  {
    NormalizedIsUnorderedPair(bytes(a), bytes(b), bytes(b), bytes(a));
  }

  lemma PendingComesNext(t: Tables, a: Str, b: Str, free: uint16, bytes: Str -> KeyBytes)
    requires Normalized(bytes(a), bytes(b)) !in t.established && (a, b) in t.pending
    ensures Ask(t, Call(a, b, free), bytes) == (t, Pending(t.pending[(a, b)]))
  {
  }

  // The first call for a pair among calls.
  predicate FirstCall(calls: seq<Call>, i: nat) {
    i < |calls| && forall j :: 0 <= j < i ==> (calls[j].a, calls[j].b) != (calls[i].a, calls[i].b)
  }

  // A manager with nothing pending or established has handed every pair that was asked for the port
  // that was free at its first call, and no other pair any port.
  ghost predicate HandedOut(t: Tables, calls: seq<Call>) {
    && (forall i: nat :: FirstCall(calls, i) ==>
          (calls[i].a, calls[i].b) in t.proto && t.proto[(calls[i].a, calls[i].b)] == calls[i].free)
    && (forall k :: k in t.proto ==> exists i: nat :: FirstCall(calls, i) && (calls[i].a, calls[i].b) == k)
  }

  lemma {:induction false} AskAllLast(t: Tables, calls: seq<Call>, c: Call, bytes: Str -> KeyBytes)
    ensures AskAll(t, calls + [c], bytes) == Ask(AskAll(t, calls, bytes), c, bytes).0
    decreases |calls|
  {
    if calls == [] {
      assert [c][1..] == [];
    } else {
      assert (calls + [c])[1..] == calls[1..] + [c];
      AskAllLast(Ask(t, calls[0], bytes).0, calls[1..], c, bytes);
    }
  }

  lemma {:induction false} PortsFromStart(calls: seq<Call>, bytes: Str -> KeyBytes)
    ensures var t := AskAll(Tables(map[], map[], map[]), calls, bytes);
            t.pending == map[] && t.established == map[] && HandedOut(t, calls)
  {
    if calls != [] {
      var n := |calls| - 1;
      var past, c := calls[..n], calls[n];
      PortsFromStart(past, bytes);
      AskAllLast(Tables(map[], map[], map[]), past, c, bytes);
      assert calls == past + [c];
      HandsOutOne(AskAll(Tables(map[], map[], map[]), past, bytes), past, c, bytes);
    }
  }

  lemma FirstCallExtends(past: seq<Call>, c: Call, i: nat)
    ensures i < |past| ==> (FirstCall(past + [c], i) <==> FirstCall(past, i))
    ensures FirstCall(past + [c], |past|) <==> forall j :: 0 <= j < |past| ==> (past[j].a, past[j].b) != (c.a, c.b)
  {
    var all := past + [c];
    assert all[|past|] == c && forall j :: 0 <= j < |past| ==> all[j] == past[j];
    if i < |past| {
      assert FirstCall(all, i) <==> forall j :: 0 <= j < i ==> (all[j].a, all[j].b) != (past[i].a, past[i].b);
      assert FirstCall(past, i) <==> forall j :: 0 <= j < i ==> (past[j].a, past[j].b) != (past[i].a, past[i].b);
    }
  }

  lemma {:induction false} FirstOf(calls: seq<Call>, j: nat) returns (i: nat)
    requires j < |calls|
    ensures i <= j && FirstCall(calls, i) && (calls[i].a, calls[i].b) == (calls[j].a, calls[j].b)
  {
    if k: nat :| k < j && (calls[k].a, calls[k].b) == (calls[j].a, calls[j].b) {
      i := FirstOf(calls, k);
    } else {
      i := j;
    }
  }

  lemma HandsOutOne(t: Tables, past: seq<Call>, c: Call, bytes: Str -> KeyBytes)
    requires HandedOut(t, past) && t.pending == map[] && t.established == map[]
    ensures var t' := Ask(t, c, bytes).0;
            t'.pending == map[] && t'.established == map[] && HandedOut(t', past + [c])
  {
    var t', all := Ask(t, c, bytes).0, past + [c];
    var n: nat := |past|;
    forall i: nat ensures i < n ==> (FirstCall(all, i) <==> FirstCall(past, i)) {
      FirstCallExtends(past, c, i);
    }
    FirstCallExtends(past, c, n);
    if (c.a, c.b) in t.proto {
      var i: nat :| FirstCall(past, i) && (past[i].a, past[i].b) == (c.a, c.b);
      assert !FirstCall(all, n);
    } else {
      forall j | 0 <= j < n ensures (past[j].a, past[j].b) != (c.a, c.b) {
        var i := FirstOf(past, j);
      }
    }
    forall k | k in t'.proto ensures exists i: nat :: FirstCall(all, i) && (all[i].a, all[i].b) == k {
      if k in t.proto {
        var i: nat :| FirstCall(past, i) && (past[i].a, past[i].b) == k;
        assert FirstCall(all, i) && (all[i].a, all[i].b) == k;
      } else {
        assert FirstCall(all, n) && (all[n].a, all[n].b) == k;
      }
    }
  }

  // ---------- Lookups ----------

  // With relaying built in, a peer on another network is met on a relay when either side needs one,
  // and a peer without a record when the announcer does.
  predicate Relayed(c: Config, peer: Str, a: Announcement, from: IpAddr, rs: Records) {
    && c.relayOn
    && if (peer, a.initiator) in rs then
         from != V4(rs[(peer, a.initiator)].wanIpv4) && (a.needsRelay || rs[(peer, a.initiator)].needsRelay)
       else a.needsRelay
  }

  // A relay is established with a relayed peer that has no record.
  predicate Panics(c: Config, peer: Str, a: Announcement, from: IpAddr, rs: Records, t: Tables) {
    && Relayed(c, peer, a, from, rs) && (peer, a.initiator) !in rs
    && Normalized(c.bytes(a.initiator), c.bytes(peer)) in t.established
  }

  // The calls for the first n peers: one for each that is relayed, in the announcement's order.
  function CallsOf(c: Config, n: nat, a: Announcement, from: IpAddr, rs: Records, free: seq<uint16>): seq<Call>
    requires n <= |a.peers| == |free|
  {
    if n == 0 then []
    else
      CallsOf(c, n - 1, a, from, rs, free)
      + (if Relayed(c, a.peers[n - 1], a, from, rs) then [Call(a.initiator, a.peers[n - 1], free[n - 1])] else [])
  }

  // The answer about p is the relay's own id with the port on record for the two peers.
  predicate MeetsOnRecord(c: Config, a: Announcement, p: Str, e: Endpoint, t: Tables) {
    && Known(t, a.initiator, p, c.bytes).Some?
    && e == Relay(1, Port(Known(t, a.initiator, p, c.bytes).value))
  }

  lemma KnownStays(t: Tables, call: Call, a: Str, b: Str, bytes: Str -> KeyBytes)
    ensures Known(t, a, b, bytes).Some? ==> Known(Ask(t, call, bytes).0, a, b, bytes) == Known(t, a, b, bytes)
    ensures Ask(t, call, bytes).0.established == t.established
    ensures Known(Ask(t, call, bytes).0, call.a, call.b, bytes) == Some(Ask(t, call, bytes).1)
  {
  }

  lemma LookupOneAsks(c: Config, peer: Str, a: Announcement, from: IpAddr, rs: Records, t: Tables, free: uint16)
    ensures var (e, t') := LookupOne(c, peer, a, from, rs, t, free);
            && t' == (if Relayed(c, peer, a, from, rs) then Ask(t, Call(a.initiator, peer, free), c.bytes).0 else t)
            && (e.None? <==> Panics(c, peer, a, from, rs, t))
            && (e.Some? && Relayed(c, peer, a, from, rs) ==> MeetsOnRecord(c, a, peer, e.value, t'))
  {
    KnownStays(t, Call(a.initiator, peer, free), a.initiator, peer, c.bytes);
  }

  ghost predicate AllMeet(c: Config, a: Announcement, from: IpAddr, rs: Records, m: Response, t: Tables) {
    forall p :: p in m && Relayed(c, p, a, from, rs) ==> MeetsOnRecord(c, a, p, m[p], t)
  }

  // One more peer.
  lemma AllMeetOneMore(c: Config, peer: Str, a: Announcement, from: IpAddr, rs: Records, t: Tables, free: uint16,
                       m: Response)
    requires AllMeet(c, a, from, rs, m, t) && LookupOne(c, peer, a, from, rs, t, free).0.Some?
    ensures var (e, t') := LookupOne(c, peer, a, from, rs, t, free);
            AllMeet(c, a, from, rs, m[peer := e.value], t')
  {
    LookupOneAsks(c, peer, a, from, rs, t, free);
    var call := Call(a.initiator, peer, free);
    forall p | p in m && Relayed(c, p, a, from, rs) ensures MeetsOnRecord(c, a, p, m[p], Ask(t, call, c.bytes).0) {
      KnownStays(t, call, a.initiator, p, c.bytes);
    }
  }

  // What the lookup of the first n peers has found and asked for.
  ghost predicate Asked(c: Config, n: nat, a: Announcement, from: IpAddr, rs: Records, t: Tables, free: seq<uint16>,
                        m: Option<Response>, t': Tables)
    requires n <= |a.peers| == |free|
  {
    && t'.established == t.established
    && (m.None? <==> exists i :: 0 <= i < n && Panics(c, a.peers[i], a, from, rs, t))
    && (m.Some? ==> t' == AskAll(t, CallsOf(c, n, a, from, rs, free), c.bytes))
    && (m.Some? ==> AllMeet(c, a, from, rs, m.value, t'))
  }

  lemma CallsOneMore(c: Config, n: nat, a: Announcement, from: IpAddr, rs: Records, t: Tables, free: seq<uint16>)
    requires n < |a.peers| == |free|
    ensures var t1 := AskAll(t, CallsOf(c, n, a, from, rs, free), c.bytes);
            AskAll(t, CallsOf(c, n + 1, a, from, rs, free), c.bytes) ==
            if Relayed(c, a.peers[n], a, from, rs) then Ask(t1, Call(a.initiator, a.peers[n], free[n]), c.bytes).0
            else t1
  {
    var calls := CallsOf(c, n, a, from, rs, free);
    AskAllLast(t, calls, Call(a.initiator, a.peers[n], free[n]), c.bytes);
    assert calls + [] == calls;
  }

  lemma AskedOneMore(c: Config, n: nat, a: Announcement, from: IpAddr, rs: Records, t: Tables, free: seq<uint16>,
                     m: Response, t1: Tables)
    requires n < |a.peers| == |free| && Asked(c, n, a, from, rs, t, free, Some(m), t1)
    ensures var (e, t2) := LookupOne(c, a.peers[n], a, from, rs, t1, free[n]);
            Asked(c, n + 1, a, from, rs, t, free, if e.None? then None else Some(m[a.peers[n] := e.value]), t2)
  {
    var peer := a.peers[n];
    LookupOneAsks(c, peer, a, from, rs, t1, free[n]);
    KnownStays(t1, Call(a.initiator, peer, free[n]), a.initiator, peer, c.bytes);
    CallsOneMore(c, n, a, from, rs, t, free);
    assert Panics(c, peer, a, from, rs, t1) <==> Panics(c, peer, a, from, rs, t);
    if LookupOne(c, peer, a, from, rs, t1, free[n]).0.Some? {
      AllMeetOneMore(c, peer, a, from, rs, t1, free[n], m);
    }
  }

  lemma PanicStays(c: Config, n: nat, a: Announcement, from: IpAddr, rs: Records, t: Tables, free: seq<uint16>,
                   t1: Tables)
    requires n < |a.peers| == |free| && Asked(c, n, a, from, rs, t, free, None, t1)
    ensures Asked(c, n + 1, a, from, rs, t, free, None, t1)
  {
    var i :| 0 <= i < n && Panics(c, a.peers[i], a, from, rs, t);
  }

  // r is what the lookup has after peer n, when q is what it had before.
  ghost predicate LooksOn(c: Config, n: nat, a: Announcement, from: IpAddr, rs: Records, free: seq<uint16>,
                          q: (Option<Response>, Tables), r: (Option<Response>, Tables))
    requires n < |a.peers| == |free|
  {
    if q.0.None? then r == q
    else
      var (e, t2) := LookupOne(c, a.peers[n], a, from, rs, q.1, free[n]);
      r == (if e.None? then None else Some(q.0.value[a.peers[n] := e.value]), t2)
  }

  lemma AskedNext(c: Config, n: nat, a: Announcement, from: IpAddr, rs: Records, t: Tables, free: seq<uint16>,
                  q: (Option<Response>, Tables), r: (Option<Response>, Tables))
    requires n < |a.peers| == |free| && LooksOn(c, n, a, from, rs, free, q, r)
    requires Asked(c, n, a, from, rs, t, free, q.0, q.1)
    ensures Asked(c, n + 1, a, from, rs, t, free, r.0, r.1)
  {
    if q.0.None? {
      PanicStays(c, n, a, from, rs, t, free, q.1);
    } else {
      AskedOneMore(c, n, a, from, rs, t, free, q.0.value, q.1);
    }
  }

  lemma {:induction false} LookupFirstAsks(c: Config, n: nat, a: Announcement, from: IpAddr, rs: Records, t: Tables,
                                           free: seq<uint16>, r: (Option<Response>, Tables))
    requires n <= |a.peers| == |free| && r == LookupFirst(c, n, a, from, rs, t, free)
    ensures Asked(c, n, a, from, rs, t, free, r.0, r.1)
  {
    if n > 0 {
      var q := LookupFirst(c, n - 1, a, from, rs, t, free);
      LookupFirstAsks(c, n - 1, a, from, rs, t, free, q);
      AskedNext(c, n - 1, a, from, rs, t, free, q, r);
    }
  }

  // A lookup panics exactly on a relayed peer without a record with which a relay is established.
  // Otherwise it asks for every relayed peer in turn, and answers about it with the port that is on
  // record for the two of them afterwards; without relayed peers the tables stay as they are.
  lemma LookupAsks(c: Config, a: Announcement, from: IpAddr, rs: Records, t: Tables, free: seq<uint16>)
    requires |a.peers| == |free|
    ensures var (m, t') := LookupAll(c, a, from, rs, t, free);
            && (m.None? <==> exists i :: 0 <= i < |a.peers| && Panics(c, a.peers[i], a, from, rs, t))
            && (m.Some? ==> t' == AskAll(t, CallsOf(c, |a.peers|, a, from, rs, free), c.bytes))
            && (m.Some? ==> AllMeet(c, a, from, rs, m.value, t'))
  {
    LookupFirstAsks(c, |a.peers|, a, from, rs, t, free, LookupAll(c, a, from, rs, t, free));
  }

}
