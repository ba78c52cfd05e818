// Who learns whom when peers that name each other announce at about the same time.
module Rendezvous {
  import opened Net
  import opened Text
  import opened Protocol
  import opened Peering
  import opened History
  import opened Server
  import opened ServerHistory

  // One peer's only exchange with the server: where its lookup and its store are.
  datatype Visit = Visit(task: nat, key: Str, look: nat, store: nat)

  ghost predicate IsVisit(h: seq<Event>, v: Visit) {
    && v.look < |h| && h[v.look].Looked? && h[v.look].task == v.task && h[v.look].ann.initiator == v.key
    && v.store < |h| && h[v.store].Stored? && h[v.store].task == v.task
  }

  // The visits are by different peers that all name each other, no peer stores twice, and no
  // sweep drops what they stored.
  ghost predicate MutualRound(h: seq<Event>, vs: seq<Visit>) {
    && (forall i :: 0 <= i < |vs| ==> IsVisit(h, vs[i]))
    && (forall i, j :: 0 <= i < |vs| && 0 <= j < |vs| && i != j ==>
          vs[i].key != vs[j].key && vs[j].key in h[vs[i].look].ann.peers)
    && (forall p, i :: 0 <= p < |h| && 0 <= i < |vs| && h[p].Stored? && h[p].ann.initiator == vs[i].key ==>
          p == vs[i].store)
    && (forall p, i, t :: 0 <= i < |vs| && vs[i].store < p < |h| && h[p].Swept? && t in h[vs[i].store].stamps ==>
          Kept(h[p].now, t))
  }

  // a's answer about b says where b is.
  predicate Learns(h: seq<Event>, a: Visit, b: Visit)
    requires a.look < |h| && h[a.look].Looked?
  {
    b.key in h[a.look].answer && h[a.look].answer[b.key] != Unknown
  }

  predicate ToldUnknown(h: seq<Event>, a: Visit, b: Visit)
    requires a.look < |h| && h[a.look].Looked?
  {
    b.key in h[a.look].answer && h[a.look].answer[b.key] == Unknown
  }

  lemma OneLookup(h: seq<Event>, p: nat, q: nat)
    requires Faithful(false, h) && p < q < |h| && h[p].Looked? && h[q].Looked?
    ensures h[p].task != h[q].task
  {
    FaithfulAt(false, h, q);
    assert h[p] in h[..q];
  }

  // A visit looks up before it stores, for one and the same announcement.
  lemma LookThenStore(h: seq<Event>, v: Visit)
    requires Faithful(false, h) && IsVisit(h, v)
    ensures v.look < v.store && h[v.look].ann == h[v.store].ann
    ensures |h[v.store].stamps| == |h[v.store].ann.peers|
  {
    FaithfulAt(false, h, v.store);
    var answer :| Looked(v.task, h[v.store].ann, V4(h[v.store].ip), answer) in h[..v.store];
    var q :| 0 <= q < v.store && h[..v.store][q] == Looked(v.task, h[v.store].ann, V4(h[v.store].ip), answer);
    if q < v.look {
      OneLookup(h, q, v.look);
    } else if v.look < q {
      OneLookup(h, v.look, q);
    }
  }

  // i learns j exactly when j's store comes before i's lookup.
  lemma LearnsIffStoredBefore(h: seq<Event>, vs: seq<Visit>, i: nat, j: nat)
    requires Faithful(false, h) && MutualRound(h, vs) && i < |vs| && j < |vs| && i != j
    ensures Learns(h, vs[i], vs[j]) <==> vs[j].store < vs[i].look
  {
    var a, b := vs[i], vs[j];
    var past := h[..a.look];
    FaithfulAt(false, h, a.look);
    LookThenStore(h, b);
    var k := (b.key, a.key);
    DirectoryIsLatestStore(past, k);
    assert b.key in h[a.look].answer;
    if b.store < a.look {
      assert Touches(past[b.store], k);
      var r := RecordOf(past[b.store], k.1);
      assert r.timestamp in h[b.store].stamps;
      assert Holds(past, b.store, k, r);
    } else {
      forall p | 0 <= p < |past| ensures !Touches(past[p], k) {
        assert past[p] == h[p];
      }
    }
  }

  // In every run with relaying off, and at every moment of it, learning is a strict partial order
  // among the peers of a round, and more: an interval order. No two peers of a round
  // learn each other; whoever learns a peer that had learnt a third learns the third too; and of
  // any two learnings, one of the learners learns the other's peer as well.
  lemma LearningIsAnIntervalOrder(c: Config, run: seq<State>, steps: seq<Step>, n: nat, h: seq<Event>, vs: seq<Visit>)
    requires IsRun(c, run, steps) && n < |run| && !c.relayOn
    requires h == run[n].history && MutualRound(h, vs)
    ensures forall i, j :: 0 <= i < |vs| && 0 <= j < |vs| && i != j ==>
              !(Learns(h, vs[i], vs[j]) && Learns(h, vs[j], vs[i]))
    ensures forall i, j, k :: 0 <= i < |vs| && 0 <= j < |vs| && 0 <= k < |vs| && i != j && j != k ==>
              Learns(h, vs[i], vs[j]) && Learns(h, vs[j], vs[k]) ==> i != k && Learns(h, vs[i], vs[k])
    ensures forall i, j, k, l | 0 <= i < |vs| && 0 <= j < |vs| && 0 <= k < |vs| && 0 <= l < |vs|
              && i != j && k != l && i != l && k != j ::
              Learns(h, vs[i], vs[j]) && Learns(h, vs[k], vs[l]) ==> Learns(h, vs[i], vs[l]) || Learns(h, vs[k], vs[j])
  {
    RunsKeepInv(c, run, steps);
    AllLearn(h, vs);
  }

  // In every such run two peers both get Unknown exactly when each looked up before the other had
  // stored; a peer that looks up after every other one has stored learns them all.
  lemma RendezvousOutcome(c: Config, run: seq<State>, steps: seq<Step>, n: nat, h: seq<Event>, vs: seq<Visit>)
    requires IsRun(c, run, steps) && n < |run| && !c.relayOn
    requires h == run[n].history && MutualRound(h, vs)
    ensures forall i, j :: 0 <= i < |vs| && 0 <= j < |vs| && i != j ==>
              (ToldUnknown(h, vs[i], vs[j]) && ToldUnknown(h, vs[j], vs[i]) <==>
               vs[i].look < vs[j].store && vs[j].look < vs[i].store)
    ensures forall i :: 0 <= i < |vs| && (forall j :: 0 <= j < |vs| && j != i ==> vs[j].store < vs[i].look) ==>
              forall j :: 0 <= j < |vs| && j != i ==> Learns(h, vs[i], vs[j])
  {
    RunsKeepInv(c, run, steps);
    AllLearn(h, vs);
  }

  lemma AllLearn(h: seq<Event>, vs: seq<Visit>)
    requires Faithful(false, h) && MutualRound(h, vs)
    ensures forall i :: 0 <= i < |vs| ==> vs[i].look < vs[i].store
    ensures forall i, j :: 0 <= i < |vs| && 0 <= j < |vs| && i != j ==>
              (Learns(h, vs[i], vs[j]) <==> vs[j].store < vs[i].look)
    ensures forall i, j :: 0 <= i < |vs| && 0 <= j < |vs| && i != j ==>
              vs[i].look != vs[j].store && vs[j].key in h[vs[i].look].answer
  {
    forall i | 0 <= i < |vs| ensures vs[i].look < vs[i].store {
      LookThenStore(h, vs[i]);
    }
    forall i, j | 0 <= i < |vs| && 0 <= j < |vs| && i != j
      ensures Learns(h, vs[i], vs[j]) <==> vs[j].store < vs[i].look
      ensures vs[i].look != vs[j].store && vs[j].key in h[vs[i].look].answer
    {
      LearnsIffStoredBefore(h, vs, i, j);
      FaithfulAt(false, h, vs[i].look);
    }
  }

}
