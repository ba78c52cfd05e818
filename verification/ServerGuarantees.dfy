// What the server's runs guarantee about the directory and about the answers it gives.
module ServerGuarantees {
  import opened Wrappers
  import opened Net
  import opened Text
  import opened Protocol
  import opened Wire
  import opened Peering
  import opened History
  import opened Server
  import opened ServerHistory

  // In every state of every run, the record at (x, y) is what the latest committed announcement
  // by x naming y left there, unless a sweep since has dropped it; and only valid announcements
  // from IPv4 addresses, each sent on the connection that stored it, are ever committed.
  lemma StorageRefinesHistory(c: Config, run: seq<State>, steps: seq<Step>, i: nat, k: (Str, Str))
    requires IsRun(c, run, steps) && i < |run|
    ensures var h := run[i].history;
            && Stamped(h)
            && (k in run[i].records <==> exists j, r :: Holds(h, j, k, r))
            && (forall j, r :: Holds(h, j, k, r) ==>
                  && run[i].records[k] == r && r.wgPort >= 1024
                  && h[j].task < |run[i].tasks|
                  && run[i].tasks[h[j].task].from == V4(r.wanIpv4)
                  && ParseRequest(run[i].tasks[h[j].task].input) == Accepted(h[j].ann))
  {
    RunsKeepInv(c, run, steps);
    var h := run[i].history;
    DirectoryIsLatestStore(h, k);
    forall j, r | Holds(h, j, k, r)
      ensures r.wgPort >= 1024 && h[j].task < |run[i].tasks|
      ensures run[i].tasks[h[j].task].from == V4(r.wanIpv4)
      ensures ParseRequest(run[i].tasks[h[j].task].input) == Accepted(h[j].ann)
    {
      FaithfulAt(c.relayOn, h, j);
      var answer :| Looked(h[j].task, h[j].ann, V4(h[j].ip), answer) in h[..j];
      assert Looked(h[j].task, h[j].ann, V4(h[j].ip), answer) in h;
    }
  }

  // The answer e about x to y is backed by the record that x's announcement for y had left.
  ghost predicate Backed(h: seq<Event>, e: Endpoint, x: Str, y: Str, from: IpAddr)
    requires Stamped(h)
  {
    match e
    case Unknown => !exists j, r :: Holds(h, j, (x, y), r)
    case LocalNetwork(v6, lan, port) =>
      port >= 1024 && exists j, r ::
        Holds(h, j, (x, y), r) && from == V4(r.wanIpv4) && v6 == r.wanIpv6 && lan == r.lanAddrs && port == r.wgPort
    case RemoteNetwork(v4, v6, port) =>
      port >= 1024 && exists j, r ::
        Holds(h, j, (x, y), r) && from != V4(r.wanIpv4) && v4 == Some(r.wanIpv4) && v6 == r.wanIpv6 && port == r.wgPort
    case Relay(_, _) => false
  }

  // With relaying off, every answer ever given names exactly the peers that were asked for; it
  // says Unknown of a peer only when no record of it for the asker was there, and otherwise
  // gives what that peer had itself announced for the asker.
  lemma AnswersWereAnnounced(c: Config, run: seq<State>, steps: seq<Step>, i: nat, p: nat)
    requires IsRun(c, run, steps) && i < |run| && !c.relayOn
    requires p < |run[i].history| && run[i].history[p].Looked?
    ensures var h := run[i].history;
            && Stamped(h[..p])
            && h[p].answer.Keys == (set x | x in h[p].ann.peers)
            && forall x :: x in h[p].answer ==> Backed(h[..p], h[p].answer[x], x, h[p].ann.initiator, h[p].from)
  {
    RunsKeepInv(c, run, steps);
    LookedIsBacked(run[i].history, p);
  }

  lemma LookedIsBacked(h: seq<Event>, p: nat)
    requires Faithful(false, h) && p < |h| && h[p].Looked?
    ensures Stamped(h[..p])
    ensures h[p].answer.Keys == (set x | x in h[p].ann.peers)
    ensures forall x :: x in h[p].answer ==> Backed(h[..p], h[p].answer[x], x, h[p].ann.initiator, h[p].from)
  {
    FaithfulAt(false, h, p);
    forall x | x in h[p].answer ensures Backed(h[..p], h[p].answer[x], x, h[p].ann.initiator, h[p].from) {
      var k := (x, h[p].ann.initiator);
      DirectoryIsLatestStore(h[..p], k);
      if k in Replay(h[..p]) {
        var j, r :| Holds(h[..p], j, k, r);
        FaithfulAt(false, h[..p], j);
        assert r.wgPort >= 1024;
      }
    }
  }

}
