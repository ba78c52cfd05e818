// When a turn of the client's loop announces, how often, and what ends the daemon.
module TurnOutcomes {
  import opened Wrappers
  import opened Text
  import opened Protocol
  import opened NetStat
  import opened WgInterface
  import opened Daemon
  import opened PeerRuns

  // One announcement for each try up to the first answered one, three at most.
  ghost predicate TriesUntilAnswered(tries: seq<Option<seq<(Str, Endpoint)>>>, n: nat) {
    && 1 <= n <= 3 && n <= |tries|
    && (forall x :: 0 <= x < n - 1 ==> tries[x].None?)
    && (n < 3 ==> tries[n - 1].Some?)
  }

  lemma {:induction false} HandleTries(w: Wg, inactive: seq<Key>, tries: seq<Option<seq<(Str, Endpoint)>>>, env: Env,
                                       parse: Parser)
    ensures var n := Handle(w, inactive, tries, env, parse).2;
            && n <= |tries| && (tries != [] ==> n >= 1)
            && (forall x :: 0 <= x < n - 1 ==> tries[x].None?)
            && (n < |tries| ==> tries[n - 1].Some?)
    decreases |tries|
  {
    if tries != [] && tries[0].None? {
      HandleTries(w, inactive, tries[1..], env, parse);
      var n := Handle(w, inactive, tries[1..], env, parse).2;
      forall x | 0 <= x < n ensures tries[x].None? {
        if x > 0 {
          assert tries[1..][x - 1] == tries[x];
        }
      }
    }
  }

  // The first answer to a turn's announcements leads to an update that fails, from device and cache w.
  ghost predicate AnswerFails(w: Wg, t: Turn, env: Env, parse: Parser) {
    exists x: nat, entries :: AnsweredBy(t, x, entries) && UpdateAll(w, entries, env, parse).failed
  }

  lemma {:induction false} FirstAnswer(tries: seq<Option<seq<(Str, Endpoint)>>>) returns (x: nat)
    ensures x <= |tries| && (forall y :: 0 <= y < x ==> tries[y].None?) && (x < |tries| ==> tries[x].Some?)
    decreases |tries|
  {
    x := 0;
    if tries != [] && tries[0].None? {
      var rest := FirstAnswer(tries[1..]);
      x := rest + 1;
      forall y | 0 <= y < x ensures tries[y].None? {
        if y > 0 {
          assert tries[1..][y - 1] == tries[y];
        }
      }
    }
  }

  lemma {:induction false} NoAnswerNoUpdate(w: Wg, inactive: seq<Key>, tries: seq<Option<seq<(Str, Endpoint)>>>,
                                            env: Env, parse: Parser)
    requires forall y :: 0 <= y < |tries| ==> tries[y].None?
    ensures var (w', left, _, failed) := Handle(w, inactive, tries, env, parse); w' == w && left == inactive && !failed
    decreases |tries|
  {
    if tries != [] {
      NoAnswerNoUpdate(w, inactive, tries[1..], env, parse);
    }
  }

  lemma HandleFails(w: Wg, inactive: seq<Key>, t: Turn, env: Env, parse: Parser)
    ensures Handle(w, inactive, t.tries, env, parse).3 <==> AnswerFails(w, t, env, parse)
  {
    var x := FirstAnswer(t.tries);
    if x < |t.tries| {
      HandleTakesFirst(w, inactive, t.tries, env, parse, x);
      assert AnsweredBy(t, x, t.tries[x].value);
      forall y: nat, entries | AnsweredBy(t, y, entries) ensures y == x {}
    } else {
      NoAnswerNoUpdate(w, inactive, t.tries, env, parse);
    }
  }

  // What the rest of a turn finds to ask for.
  function Found(s: State, t: Turn): seq<Key> {
    if t.now > s.next && t.shown.Some? then QuietKeys(s.wg.tracker, t.shown.value) else s.inactive
  }

  predicate Unread(s: State, t: Turn) { t.now > s.next && t.shown.None? }

  // The surroundings, as the daemon knows its own network.
  function Seen(s: State, t: Turn): Env
    requires s.net.current.Some?
  {
    t.env.(hasIpv6 := s.net.current.value.wanIpv6.Some?)
  }

  lemma CheckFinds(s: State, t: Turn)
    requires !Unread(s, t) && (t.shown.Some? ==> DistinctPeers(t.shown.value))
    ensures Checked(s, t).inactive == Found(s, t)
  {
    if t.shown.Some? {
      ScanFindsQuietPeers(s.wg.tracker, t.shown.value);
    }
  }

  lemma RestAnnounces(s: State, t: Turn, status: NetStatus, change: Option<Change>, parse: Parser)
    requires !s.dead && |t.tries| == 3 && (t.shown.Some? ==> DistinctPeers(t.shown.value)) && s.net.current.Some?
    ensures var log := Rest(s, t, status, change, parse).log;
            && |log| == |s.log| + 1 && log[..|s.log|] == s.log
            && (log[|s.log|].announced != [] <==> !Unread(s, t) && Found(s, t) != [])
            && (log[|s.log|].announced != [] ==> TriesUntilAnswered(t.tries, |log[|s.log|].announced|))
  {
    if !Unread(s, t) {
      CheckFinds(s, t);
      HandleTries(Checked(s, t).wg, Checked(s, t).inactive, t.tries, Seen(s, t), parse);
    }
  }

  lemma RestUnanswered(s: State, t: Turn, status: NetStatus, change: Option<Change>, parse: Parser)
    requires !s.dead && (t.shown.Some? ==> DistinctPeers(t.shown.value)) && s.net.current.Some?
    requires Unread(s, t) || Found(s, t) == [] || forall x :: 0 <= x < |t.tries| ==> t.tries[x].None?
    ensures var s' := Rest(s, t, status, change, parse);
            s'.wg == Checked(s, t).wg && (!s'.dead ==> s'.inactive == Found(s, t))
  {
    if !Unread(s, t) {
      CheckFinds(s, t);
      if Found(s, t) != [] {
        NoAnswerNoUpdate(Checked(s, t).wg, Checked(s, t).inactive, t.tries, Seen(s, t), parse);
      }
    }
  }

  lemma RestEnds(s: State, t: Turn, status: NetStatus, change: Option<Change>, parse: Parser)
    requires !s.dead && (t.shown.Some? ==> DistinctPeers(t.shown.value)) && s.net.current.Some?
    ensures Rest(s, t, status, change, parse).dead <==>
              || Unread(s, t)
              || (Found(s, t) != [] && AnswerFails(Checked(s, t).wg, t, Seen(s, t), parse))
  {
    if !Unread(s, t) {
      CheckFinds(s, t);
      HandleFails(Checked(s, t).wg, Checked(s, t).inactive, t, Seen(s, t), parse);
    }
  }

  // What a turn does up to where the rest begins.
  lemma PastNetwork(s: State, t: Turn, traverse: bool) returns (mid: State, change: Option<Change>)
    requires !s.dead
    ensures var (net, status) := Check(s.net, t.info);
            if status == ChangedToNew then (mid, change) == OnChange(s.(net := net), t, traverse)
            else mid == s.(net := net) && change == None
    ensures GetsPast(s, t, traverse) ==>
              && !mid.dead && mid.wg == s.wg && mid.log == s.log
              && mid.net.current.Some? && (mid.net.current.value.wanIpv6 == t.info.wanIpv6)
              && (t.now > mid.next <==> IsChecked(s, t, traverse))
              && Found(mid, t) == Listed(s, t, traverse)
              && Checked(mid, t).wg == CheckedWg(s, t, traverse)
    ensures Check(s.net, t.info).1 == ChangedToNew ==> (change.Some? <==> GetsPast(s, t, traverse))
    ensures Check(s.net, t.info).1 == ChangedToNew ==>
              (mid.dead <==> (traverse ==> t.detection.Some?) && (!t.portSet || t.all.None?))
  {
    var (net, status) := Check(s.net, t.info);
    mid, change := s.(net := net), None;
    if status == ChangedToNew {
      var r := OnChange(mid, t, traverse);
      mid, change := r.0, r.1;
    }
  }

  // A turn of a live daemon asks the server for the peers on its list exactly when it gets past the
  // network, no due check fails to read the device and the list is not empty; and then it asks until
  // it is answered, three times at most.
  lemma TurnAnnounces(s: State, t: Turn, traverse: bool, parse: Parser)
    requires !s.dead && ValidTurn(t) && (t.shown.Some? ==> DistinctPeers(t.shown.value))
    ensures var e := EntryOf(s, t, traverse, parse);
            && Iterate(s, t, traverse, parse).log == s.log + [e]
            && (e.announced != [] <==>
                && GetsPast(s, t, traverse)
                && !(IsChecked(s, t, traverse) && t.shown.None?)
                && Listed(s, t, traverse) != [])
            && (e.announced != [] ==> TriesUntilAnswered(t.tries, |e.announced|))
  {
    var mid, change := PastNetwork(s, t, traverse);
    if GetsPast(s, t, traverse) {
      RestAnnounces(mid, t, Check(s.net, t.info).1, change, parse);
    }
  }

  // A turn that makes no announcement, or gets no answer, does no more to the device and the cache
  // than its check does, and keeps its list.
  lemma UnansweredTurn(s: State, t: Turn, traverse: bool, parse: Parser)
    requires !s.dead && ValidTurn(t) && (t.shown.Some? ==> DistinctPeers(t.shown.value))
    requires EntryOf(s, t, traverse, parse).announced == [] || forall x :: 0 <= x < 3 ==> t.tries[x].None?
    ensures var s' := Iterate(s, t, traverse, parse);
            && s'.wg == CheckedWg(s, t, traverse)
            && (!s'.dead ==> s'.inactive == Listed(s, t, traverse))
  {
    TurnAnnounces(s, t, traverse, parse);
    var mid, change := PastNetwork(s, t, traverse);
    if GetsPast(s, t, traverse) {
      RestUnanswered(mid, t, Check(s.net, t.info).1, change, parse);
    }
  }

  // A turn of a live daemon ends it exactly when the device refuses the port for a new network or its
  // peers cannot be read then, when a due check cannot read the device, or when the update by the
  // first answer fails.
  lemma TurnEndsDaemon(s: State, t: Turn, traverse: bool, parse: Parser)
    requires !s.dead && ValidTurn(t) && (t.shown.Some? ==> DistinctPeers(t.shown.value))
    ensures Iterate(s, t, traverse, parse).dead <==>
              || (&& Check(s.net, t.info).1 == ChangedToNew && (traverse ==> t.detection.Some?)
                  && (!t.portSet || t.all.None?))
              || (IsChecked(s, t, traverse) && t.shown.None?)
              || (&& GetsPast(s, t, traverse) && Listed(s, t, traverse) != []
                  && AnswerFails(CheckedWg(s, t, traverse), t, t.env.(hasIpv6 := t.info.wanIpv6.Some?), parse))
  {
    var mid, change := PastNetwork(s, t, traverse);
    if GetsPast(s, t, traverse) {
      RestEnds(mid, t, Check(s.net, t.info).1, change, parse);
    }
  }

}
