// Both clients and the server together: what B's daemon announces is what A's device is given.
module Traversal {
  import opened Wrappers
  import opened Net
  import opened Text
  import opened Protocol
  import opened Postcard
  import opened Wire
  import opened Peering
  import opened History
  import opened Server
  import opened ServerHistory
  import opened Convergence
  import WgInterface
  import NetStat
  import Daemon
  import DaemonRuns
  import PeerRuns

  // A lookup is for the announcement whose bytes came in on the task's connection.
  lemma LookedForSent(c: Config, run: seq<State>, steps: seq<Step>, n: nat, p: nat, a: Announcement, tail: Bytes)
    requires IsRun(c, run, steps) && n < |run| && p < |run[n].history| && run[n].history[p].Looked?
    requires run[n].history[p].task < |run[n].tasks|
    requires run[n].tasks[run[n].history[p].task].input == RequestFrame(a) + tail
        && |EncAnnouncement(a)| <= MAX_MESSAGE_SIZE
    ensures run[n].history[p].ann == a && run[n].history[p].from == run[n].tasks[run[n].history[p].task].from
  {
    RunsKeepInv(c, run, steps);
    ServerReadsAnnouncement(a, tail);
    assert run[n].history[p] in run[n].history;
  }

  // The message that a daemon sends for an announcement: its own key and the keys it asks for, as
  // texts, and the addresses of its network.
  function Message(key: WgInterface.Key, said: Daemon.Announce, text: WgInterface.Key -> Str): Announcement {
    Announcement(text(key), seq(|said.peers|, i requires 0 <= i < |said.peers| => text(said.peers[i])),
                 said.network.wanIpv6, said.port, said.network.lanAddrs, said.needsRelay)
  }

  // B's client: a run of its daemon behind NATs that map ports alike towards everyone, and an
  // announcement it makes in turn i, when its last change of network was completed.
  ghost predicate Announces(w: WgInterface.Wg, start: Daemon.Instant, turns: seq<Daemon.Turn>,
                            parse: Str -> Option<WgInterface.Key>, natOf: NetStat.NetInfo -> DaemonRuns.Mapping, i: nat,
                            said: Daemon.Announce)
  {
    var log := Daemon.Run(Daemon.Start(w, start), turns, true, parse).log;
    && (forall t :: t in turns ==> Daemon.ValidTurn(t) && DaemonRuns.Honest(t, natOf))
    && i < |log| && said in log[i].announced && DaemonRuns.Completed(log[..i + 1])
  }

  // The server: a state with a reply to A's message, whose lookup found what B's message had stored.
  ghost predicate Replies(s: State, p: nat, j: nat, a: Announcement, b: Announcement, r: Record, tailA: Bytes,
                          tailB: Bytes,
                          frame: Bytes)
  {
    var h := s.history;
    && |EncAnnouncement(a)| <= MAX_MESSAGE_SIZE && |EncAnnouncement(b)| <= MAX_MESSAGE_SIZE
    && p < |h| && h[p].Looked? && h[p].task < |s.tasks| && s.tasks[h[p].task].input == RequestFrame(a) + tailA
    && Stamped(h[..p]) && Holds(h[..p], j, (b.initiator, a.initiator), r)
    && h[j].task < |s.tasks| && s.tasks[h[j].task].input == RequestFrame(b) + tailB
    && Replied(h[p].task, frame) in h
  }

  // A's client: in one turn of its daemon, from any loop head, it asks for key, and the first answer it
  // gets is what the reply says, in some order.
  ghost predicate Receives(s: Daemon.State, t: Daemon.Turn, traverse: bool, parse: Str -> Option<WgInterface.Key>,
                           said: Daemon.Announce, x: nat, entries: seq<(Str, Endpoint)>, reply: Bytes,
                           key: WgInterface.Key)
  {
    && said in PeerRuns.EntryOf(s, t, traverse, parse).announced && key in said.peers
    && PeerRuns.AnsweredBy(t, x, entries)
    && ParseResponse(reply).Received? && Enumerates(entries, ParseResponse(reply).endpoints)
  }

  lemma NamesKey(key: WgInterface.Key, said: Daemon.Announce, text: WgInterface.Key -> Str, k: WgInterface.Key)
    requires k in said.peers
    ensures text(k) in Message(key, said, text).peers
  {
    var i :| 0 <= i < |said.peers| && said.peers[i] == k;
    assert Message(key, said, text).peers[i] == text(k);
  }

  // B's daemon announces itself, A's daemon asks for B, and both messages reach the server, in any run
  // of it with relaying off, so that B's record is there when A looks up. If A's daemon gets the reply
  // and the turn does not end it, then at the next loop head A's cache has B at an endpoint whose port
  // is the one to which the NAT of B's network maps the port that B's device listens on; the address is
  // the one chosen from the IPv6 and LAN addresses of B's network and the address the server saw. A's
  // device uses that endpoint exactly when the cache did not hold it before, or the device already did.
  lemma DeviceIsGivenMappedPort(
    keyA: WgInterface.Key, keyB: WgInterface.Key, text: WgInterface.Key -> Str, parse: Str -> Option<WgInterface.Key>,
    // B's client
    wB: WgInterface.Wg, startB: Daemon.Instant, turnsB: seq<Daemon.Turn>, natOf: NetStat.NetInfo -> DaemonRuns.Mapping,
    i: nat, saidB: Daemon.Announce,
    // the server
    c: Config, run: seq<State>, steps: seq<Step>, n: nat, p: nat, j: nat, r: Record, tailA: Bytes, tailB: Bytes,
    frame: Bytes, more: Bytes,
    // A's client
    s: Daemon.State, t: Daemon.Turn, traverse: bool, saidA: Daemon.Announce, x: nat, entries: seq<(Str, Endpoint)>)
    requires Injective(parse) && parse(text(keyB)) == Some(keyB)
    requires Announces(wB, startB, turnsB, parse, natOf, i, saidB)
    requires IsRun(c, run, steps) && n < |run| && !c.relayOn
    requires Replies(run[n], p, j, Message(keyA, saidA, text), Message(keyB, saidB, text), r, tailA, tailB, frame)
    requires Receives(s, t, traverse, parse, saidA, x, entries, frame + more, keyB)
    requires !Daemon.Iterate(s, t, traverse, parse).dead
    ensures saidB.listen.Some?
    ensures r.wanIpv6 == saidB.network.wanIpv6 && r.lanAddrs == saidB.network.lanAddrs
    ensures r.needsRelay == saidB.needsRelay
    ensures run[n].tasks[run[n].history[j].task].from == V4(r.wanIpv4)
    ensures var network := Daemon.Run(Daemon.Start(wB, startB), turnsB, true, parse).log[i].info;
            saidB.network.SameAs(network) && r.wgPort == natOf(network)(saidB.listen.value)
    ensures var env := t.env.(hasIpv6 := saidA.network.wanIpv6.Some?);
            var target := Chosen(r, run[n].history[p].from, env);
            var before, after := PeerRuns.CheckedWg(s, t, traverse), Daemon.Iterate(s, t, traverse, parse).wg;
            target.To? ==>
              && target.sa.port == r.wgPort && Remembers(after, keyB, target.sa)
              && (PointsAt(after, keyB, target.sa) <==>
                  !Remembers(before, keyB, target.sa) || PointsAt(before, keyB, target.sa))
  {
    AnnouncedFits(wB, startB, turnsB, parse, natOf, i, saidB);
    NamesKey(keyA, saidA, text, keyB);
    var env := t.env.(hasIpv6 := saidA.network.wanIpv6.Some?);
    PeerRuns.TurnUpdates(s, t, traverse, parse, saidA, x, entries);
    ReplyUpdates(c, run, steps, n, p, j, Message(keyA, saidA, text), Message(keyB, saidB, text), r, tailA, tailB,
        frame, more,
                 PeerRuns.CheckedWg(s, t, traverse), entries, env, parse, keyB);
  }

  // What an update by the server's reply does.
  lemma ReplyUpdates(c: Config, run: seq<State>, steps: seq<Step>, n: nat, p: nat, j: nat, a: Announcement,
                     b: Announcement,
                     r: Record, tailA: Bytes, tailB: Bytes, frame: Bytes, more: Bytes, w: WgInterface.Wg,
                     entries: seq<(Str, Endpoint)>, env: WgInterface.Env, parse: Str -> Option<WgInterface.Key>,
                     k: WgInterface.Key)
    requires IsRun(c, run, steps) && n < |run| && !c.relayOn && Replies(run[n], p, j, a, b, r, tailA, tailB, frame)
    requires ParseResponse(frame + more).Received? && Enumerates(entries, ParseResponse(frame + more).endpoints)
    requires Injective(parse) && parse(b.initiator) == Some(k) && b.initiator in a.peers
    requires !WgInterface.UpdateAll(w, entries, env, parse).failed
    ensures r.wgPort == b.wgPort && r.wanIpv6 == b.ipv6 && r.lanAddrs == b.lanAddrs && r.needsRelay == b.needsRelay
    ensures run[n].tasks[run[n].history[j].task].from == V4(r.wanIpv4)
    ensures var w' := WgInterface.UpdateAll(w, entries, env, parse).wg;
            var target := Chosen(r, run[n].history[p].from, env);
            target.To? ==>
              && target.sa.port == r.wgPort && Remembers(w', k, target.sa)
              && (PointsAt(w', k, target.sa) <==> !Remembers(w, k, target.sa) || PointsAt(w, k, target.sa))
  {
    LookedForSent(c, run, steps, n, p, a, tailA);
    DeviceConverges(c, run, steps, n, p, j, b, tailB, r, frame, more, w, entries, env, parse, k);
  }

  lemma AnnouncedFits(w: WgInterface.Wg, start: Daemon.Instant, turns: seq<Daemon.Turn>,
                      parse: Str -> Option<WgInterface.Key>, natOf: NetStat.NetInfo -> DaemonRuns.Mapping, i: nat,
                      said: Daemon.Announce)
    requires Announces(w, start, turns, parse, natOf, i, said)
    ensures var network := Daemon.Run(Daemon.Start(w, start), turns, true, parse).log[i].info;
            said.listen.Some? && said.network.SameAs(network) && said.port == natOf(network)(said.listen.value)
  {
    DaemonRuns.AnnouncedPortMatchesNat(w, start, turns, parse, natOf, i, said);
    DaemonRuns.AnnouncementsMatchDevice(w, start, turns, true, parse, i, said);
  }

}
