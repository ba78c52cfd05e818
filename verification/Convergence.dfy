// From one client's announcement to another client's device: the whole way through the wire
// format, the server's directory and the client's update.
module Convergence {
  import opened Wrappers
  import opened Net
  import opened Text
  import opened Protocol
  import opened Postcard
  import opened Wire
  import opened Peering
  import opened History
  import opened Server
  import opened ServerHistory
  import opened Rendezvous
  import opened OnLink
  import opened WgInterface

  // What the client makes of a record: the peer's own port, and its IPv6 address if both sides
  // have one; otherwise the address the server saw it at, or on the same public address the
  // first of its LAN addresses on link with one of ours.
  function Chosen(r: Record, from: IpAddr, env: Env): Target {
    if env.hasIpv6 && r.wanIpv6.Some? then To(SocketAddr(V6(r.wanIpv6.value), r.wgPort))
    else if from != V4(r.wanIpv4) then To(SocketAddr(V4(r.wanIpv4), r.wgPort))
    else
      var c := Candidates(if env.ours.Some? then env.ours.value else [], r.lanAddrs);
      if c == [] then Skip else To(SocketAddr(c[0].Addr(), r.wgPort))
  }

  ghost predicate Injective(parse: Str -> Option<Key>) {
    forall s, t :: parse(s).Some? && parse(s) == parse(t) ==> s == t
  }

  lemma EnumerationIsDistinct(entries: seq<(Str, Endpoint)>, m: Response, parse: Str -> Option<Key>)
    requires Enumerates(entries, m) && Injective(parse)
    ensures DistinctKeys(entries, parse)
  {
  }

  // What a task replied is the one answer it looked up.
  lemma ReplyIsOfLookup(h: seq<Event>, p: nat, frame: Bytes) returns (entries: seq<(Str, Endpoint)>)
    requires Faithful(false, h) && p < |h| && h[p].Looked? && Replied(h[p].task, frame) in h
    ensures Enumerates(entries, h[p].answer) && |EncResponse(entries)| < 0x1_0000_0000
        && frame == ResponseFrame(entries)
  {
    var q :| 0 <= q < |h| && h[q] == Replied(h[p].task, frame);
    FaithfulAt(false, h, q);
    assert FramesAnswer(h[..q], h[p].task, frame);
    var a, from, answer;
    a, from, answer, entries :|
      Looked(h[p].task, a, from, answer) in h[..q] && Enumerates(entries, answer)
          && |EncResponse(entries)| < 0x1_0000_0000
      && frame == ResponseFrame(entries);
    OnlyLookup(h, p, Looked(h[p].task, a, from, answer), h[..q]);
  }

  lemma OnlyLookup(h: seq<Event>, p: nat, e: Event, past: seq<Event>)
    requires Faithful(false, h) && p < |h| && h[p].Looked? && past <= h
    requires e in past && e.Looked? && e.task == h[p].task
    ensures e == h[p]
  {
    var x :| 0 <= x < |past| && past[x] == e;
    if x < p { OneLookup(h, x, p); } else if p < x { OneLookup(h, p, x); }
  }

  // The frame a task sent carries what the task looked up, and the client reads it when it fits.
  lemma ReplyCarriesAnswer(h: seq<Event>, p: nat, frame: Bytes, more: Bytes)
    requires Faithful(false, h) && p < |h| && h[p].Looked? && Replied(h[p].task, frame) in h
    ensures ParseResponse(frame + more) == Received(h[p].answer) || ParseResponse(frame + more) == NoReply(Oversized)
  {
    var entries := ReplyIsOfLookup(h, p, frame);
    ClientReadsResponse(entries, h[p].answer, more);
  }

  // The record that x had left for y determines what y's lookup was told of x.
  lemma AnswerFollowsRecord(h: seq<Event>, p: nat, x: Str, j: nat, r: Record)
    requires Faithful(false, h) && p < |h| && h[p].Looked? && x in h[p].ann.peers
    requires Holds(h[..p], j, (x, h[p].ann.initiator), r)
    ensures x in h[p].answer
    ensures h[p].answer[x] == if h[p].from == V4(r.wanIpv4) then LocalNetwork(r.wanIpv6, r.lanAddrs, r.wgPort)
                              else RemoteNetwork(Some(r.wanIpv4), r.wanIpv6, r.wgPort)
  {
    FaithfulAt(false, h, p);
    DirectoryIsLatestStore(h[..p], (x, h[p].ann.initiator));
  }

  // A store is of the announcement on its own connection.
  lemma StoredComesFromItsConnection(c: Config, s: State, j: nat)
    requires Inv(c, s) && j < |s.history| && s.history[j].Stored?
    ensures var e := s.history[j];
            && e.task < |s.tasks| && s.tasks[e.task].from == V4(e.ip)
               && ParseRequest(s.tasks[e.task].input) == Accepted(e.ann)
  {
    var e := s.history[j];
    FaithfulAt(c.relayOn, s.history, j);
    var answer :| Looked(e.task, e.ann, V4(e.ip), answer) in s.history[..j];
    assert Looked(e.task, e.ann, V4(e.ip), answer) in s.history;
  }

  // A record that a lookup finds is what the connection that stored it had announced.
  lemma RecordIsAnnounced(c: Config, s: State, p: nat, j: nat, annB: Announcement, tail: Bytes, y: Str, r: Record)
    requires Inv(c, s) && !c.relayOn && p <= |s.history| && Stamped(s.history[..p])
    requires Holds(s.history[..p], j, (annB.initiator, y), r) && |EncAnnouncement(annB)| <= MAX_MESSAGE_SIZE
    requires s.history[j].task < |s.tasks| && s.tasks[s.history[j].task].input == RequestFrame(annB) + tail
    ensures r.wgPort == annB.wgPort >= 1024 && r.wanIpv6 == annB.ipv6 && r.lanAddrs == annB.lanAddrs
    ensures r.needsRelay == annB.needsRelay
    ensures s.tasks[s.history[j].task].from == V4(r.wanIpv4)
  {
    assert s.history[..p][j] == s.history[j];
    ServerReadsAnnouncement(annB, tail);
    StoredComesFromItsConnection(c, s, j);
  }

  predicate PointsAt(w: Wg, k: Key, sa: SocketAddr) { k in w.device && w.device[k] == Some(sa) }

  predicate Remembers(w: Wg, k: Key, sa: SocketAddr) { k in w.tracker && w.tracker[k].endpoint == Some(sa) }

  // A successful update with an answer that says of x what the record r says.
  lemma UpdateReachesRecord(w: Wg, m: Response, entries: seq<(Str, Endpoint)>, env: Env, parse: Str -> Option<Key>,
                            x: Str, k: Key, r: Record, from: IpAddr)
    requires Enumerates(entries, m) && Injective(parse) && parse(x) == Some(k)
    requires !UpdateAll(w, entries, env, parse).failed
    requires x in m && m[x] == if from == V4(r.wanIpv4) then LocalNetwork(r.wanIpv6, r.lanAddrs, r.wgPort)
                               else RemoteNetwork(Some(r.wanIpv4), r.wanIpv6, r.wgPort)
    ensures var w' := UpdateAll(w, entries, env, parse).wg;
            var target := Chosen(r, from, env);
            target.To? ==>
              && k in w'.tracker && w'.tracker[k].endpoint == Some(target.sa)
              && (PointsAt(w', k, target.sa) <==> !Remembers(w, k, target.sa) || PointsAt(w, k, target.sa))
  {
    EnumerationIsDistinct(entries, m, parse);
    var target := Chosen(r, from, env);
    if target.To? {
      assert (x, m[x]) in entries;
      assert TargetOf(m[x], env) == target;
      assert Wants(entries, env, parse, k, target.sa);
      DeviceFollowsUnlessRoamed(w, entries, env, parse, k, target.sa);
    }
  }

  // B announced annB, and its store is the latest for the pair and not swept when A looks up, in any
  // run of the server with relaying off. A's client reads the reply. If its update meets no error,
  // then A's cache points at what B announced: B's port, and the address chosen from B's IPv6
  // address, its LAN addresses and the address the server saw B at. A's device does so exactly when
  // the cache did not hold that endpoint before, or the device already used it; so always, unless
  // the kernel had moved the peer away from an endpoint that the cache still held.
  lemma DeviceConverges(c: Config, run: seq<State>, steps: seq<Step>, n: nat, p: nat, j: nat, annB: Announcement,
                        tail: Bytes,
                        r: Record, frame: Bytes, more: Bytes,
                        w: Wg, entries: seq<(Str, Endpoint)>, env: Env, parse: Str -> Option<Key>, k: Key)
    requires IsRun(c, run, steps) && n < |run| && !c.relayOn
    requires |EncAnnouncement(annB)| <= MAX_MESSAGE_SIZE
    // A's lookup and the record it found
    requires p < |run[n].history| && run[n].history[p].Looked? && annB.initiator in run[n].history[p].ann.peers
    requires Stamped(run[n].history[..p])
    requires Holds(run[n].history[..p], j, (annB.initiator, run[n].history[p].ann.initiator), r)
    // the record came in on B's connection, which carried annB
    requires run[n].history[j].task < |run[n].tasks|
        && run[n].tasks[run[n].history[j].task].input == RequestFrame(annB) + tail
    // the reply, and what A's client does with it
    requires Replied(run[n].history[p].task, frame) in run[n].history
    requires ParseResponse(frame + more).Received? && Enumerates(entries, ParseResponse(frame + more).endpoints)
    requires Injective(parse) && parse(annB.initiator) == Some(k)
    requires !UpdateAll(w, entries, env, parse).failed
    ensures r.wgPort == annB.wgPort >= 1024 && r.wanIpv6 == annB.ipv6 && r.lanAddrs == annB.lanAddrs
    ensures r.needsRelay == annB.needsRelay
    ensures run[n].tasks[run[n].history[j].task].from == V4(r.wanIpv4)
    ensures var w' := UpdateAll(w, entries, env, parse).wg;
            var target := Chosen(r, run[n].history[p].from, env);
            target.To? ==>
              && k in w'.tracker && w'.tracker[k].endpoint == Some(target.sa)
              && (PointsAt(w', k, target.sa) <==> !Remembers(w, k, target.sa) || PointsAt(w, k, target.sa))
  {
    RunsKeepInv(c, run, steps);
    var h := run[n].history;
    RecordIsAnnounced(c, run[n], p, j, annB, tail, h[p].ann.initiator, r);
    AnswerFollowsRecord(h, p, annB.initiator, j, r);
    ReplyCarriesAnswer(h, p, frame, more);
    UpdateReachesRecord(w, h[p].answer, entries, env, parse, annB.initiator, k, r, h[p].from);
  }

}
