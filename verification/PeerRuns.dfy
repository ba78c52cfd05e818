// What every run of the client's loop keeps true of its cache and of its list of inactive peers.
module PeerRuns {
  import opened Wrappers
  import opened Text
  import opened Protocol
  import opened NetStat
  import opened WgInterface
  import opened Daemon

  type Parser = Str -> Option<Key>

  // ---------- Turns ----------

  // The entry that a turn writes.
  function EntryOf(s: State, t: Turn, traverse: bool, parse: Parser): Entry {
    var log := Iterate(s, t, traverse, parse).log;
    if log == [] then Entry(t.info, NetStatus.Offline, None, None, []) else log[|log| - 1]
  }

  // What the entry of a turn that goes on says of its list.
  lemma RestEntry(s: State, t: Turn, status: NetStatus, change: Option<Change>, parse: Parser)
    ensures var log := Rest(s, t, status, change, parse).log;
            && |log| == |s.log| + 1 && log[|s.log|].change == change && (log[|s.log|].check.Some? <==> t.now > s.next)
            && forall a :: a in log[|s.log|].announced ==>
                 a.peers == if t.now > s.next && t.shown.Some? then Scan(s.wg.tracker, t.shown.value).1 else s.inactive
  {
  }

  // ---------- The cache ----------

  lemma DoAllExtends(w: Wg, ops: seq<WgInterface.Op>, op: WgInterface.Op, parse: Parser)
    ensures DoAll(w, ops + [op], parse) == Do(DoAll(w, ops, parse), op, parse)
    ensures Undisturbed(w, ops + [op], parse) <==>
              Undisturbed(w, ops, parse) && (!op.Update? ==> Shows(DoAll(w, ops, parse).device, op.peers))
    ensures AllSamples(ops + [op]) == AllSamples(ops) + Samples(op)
  {
    assert (ops + [op])[..|ops|] == ops;
  }

  // What one turn's answers do to device and cache: at most one update.
  lemma {:induction false} HandleUpdates(w: Wg, inactive: seq<Key>, tries: seq<Option<seq<(Str, Endpoint)>>>,
                                         env: Env, parse: Parser)
    ensures var w' := Handle(w, inactive, tries, env, parse).0;
            w' == w || exists entries :: Some(entries) in tries && w' == Do(w, Update(entries, env), parse)
    decreases |tries|
  {
    if tries != [] {
      if tries[0].Some? {
        assert Handle(w, inactive, tries, env, parse).0 == Do(w, Update(tries[0].value, env), parse);
        assert Some(tries[0].value) in tries;
      } else {
        HandleUpdates(w, inactive, tries[1..], env, parse);
        var w' := Handle(w, inactive, tries[1..], env, parse).0;
        if w' != w {
          var entries :| Some(entries) in tries[1..] && w' == Do(w, Update(entries, env), parse);
          assert Some(entries) in tries;
        }
      }
    }
  }

  // The device as a turn's scan sees it is the device as the client left it.
  ghost predicate SeesDevice(s: State, t: Turn) {
    t.shown.Some? ==> Shows(s.wg.device, t.shown.value)
  }

  // The samples that a turn submits to the tracker.
  function ShownSamples(t: Turn): set<(Key, nat)> {
    if t.shown.Some? then Samples(Inactive(t.shown.value)) else {}
  }

  // The turn gets past the network: it is an old one, or a new one that was taken into use.
  predicate GetsPast(s: State, t: Turn, traverse: bool) {
    match Check(s.net, t.info).1
    case Offline => false
    case HardNat => false
    case StillOnline => true
    case ChangedToPrev => true
    case ChangedToNew => (traverse ==> t.detection.Some?) && t.portSet && t.all.Some?
  }

  // The turn completes a change of network.
  predicate Completes(s: State, t: Turn, traverse: bool) {
    Check(s.net, t.info).1 == ChangedToNew && GetsPast(s, t, traverse)
  }

  // The turn gets as far as its inactivity check, and the check is due.
  predicate IsChecked(s: State, t: Turn, traverse: bool) {
    GetsPast(s, t, traverse) && t.now > s.next + if Completes(s, t, traverse) then PERIOD else 0
  }

  function TurnSamples(s: State, t: Turn, traverse: bool): set<(Key, nat)> {
    if IsChecked(s, t, traverse) then ShownSamples(t) else {}
  }

  // These are the turns that log a check, or a change.
  lemma CheckIsLogged(s: State, t: Turn, traverse: bool, parse: Parser)
    ensures EntryOf(s, t, traverse, parse).check.Some? <==> IsChecked(s, t, traverse)
    ensures EntryOf(s, t, traverse, parse).change.Some? <==> Completes(s, t, traverse)
  {
    var status := Check(s.net, t.info).1;
    var s1 := s.(net := Check(s.net, t.info).0);
    if status == ChangedToNew {
      var (s2, change) := OnChange(s1, t, traverse);
      if change.Some? {
        RestEntry(s2, t, status, change, parse);
      }
    } else if status in {StillOnline, ChangedToPrev} {
      RestEntry(s1, t, status, None, parse);
    }
  }

  // What a turn does to device and cache: a scan at most, then an update at most.
  lemma TurnDoes(s: State, t: Turn, traverse: bool, parse: Parser, w: Wg, ops: seq<WgInterface.Op>)
    returns (ops': seq<WgInterface.Op>)
    requires s.wg == DoAll(w, ops, parse)
    ensures Iterate(s, t, traverse, parse).wg == DoAll(w, ops', parse)
    ensures AllSamples(ops') == AllSamples(ops) + TurnSamples(s, t, traverse)
    ensures Undisturbed(w, ops, parse) && SeesDevice(s, t) ==> Undisturbed(w, ops', parse)
  {
    var status := Check(s.net, t.info).1;
    var s1 := s.(net := Check(s.net, t.info).0);
    match status {
      case Offline => ops' := ops;
      case HardNat => ops' := ops;
      case ChangedToNew =>
        var (s2, change) := OnChange(s1, t, traverse);
        if change.None? {
          ops' := ops;
        } else {
          ops' := RestDoes(s2, t, status, change, parse, w, ops);
        }
      case _ => ops' := RestDoes(s1, t, status, None, parse, w, ops);
    }
  }

  lemma RestDoes(s: State, t: Turn, status: NetStatus, change: Option<Change>, parse: Parser, w: Wg,
                 ops: seq<WgInterface.Op>)
    returns (ops': seq<WgInterface.Op>)
    requires s.wg == DoAll(w, ops, parse)
    ensures AllSamples(ops') == AllSamples(ops) + (if t.now > s.next then ShownSamples(t) else {})
    ensures Rest(s, t, status, change, parse).wg == DoAll(w, ops', parse)
    ensures Undisturbed(w, ops, parse) && SeesDevice(s, t) ==> Undisturbed(w, ops', parse)
  {
    var due := t.now > s.next;
    var s' := Rest(s, t, status, change, parse);
    ops' := ops;
    if due && t.shown.Some? {
      DoAllExtends(w, ops, Inactive(t.shown.value), parse);
      ops' := ops + [Inactive(t.shown.value)];
    }
    var w1 := DoAll(w, ops', parse);
    if s'.wg != w1 {
      var inactive := if due then Scan(s.wg.tracker, t.shown.value).1 else s.inactive;
      var env := t.env.(hasIpv6 := s.net.current.value.wanIpv6.Some?);
      HandleUpdates(w1, inactive, t.tries, env, parse);
      var entries :| s'.wg == Do(w1, Update(entries, env), parse);
      DoAllExtends(w, ops', Update(entries, env), parse);
      ops' := ops' + [Update(entries, env)];
    }
  }

  // Nothing but the client moves the device's endpoints up to loop head n.
  ghost predicate SeesFirst(states: seq<State>, turns: seq<Turn>, n: nat)
    requires n <= |turns| < |states|
  {
    forall m :: 0 <= m < n ==> states[m].dead || SeesDevice(states[m], turns[m])
  }

  function SamplesAt(s: State, t: Turn, traverse: bool): set<(Key, nat)> {
    if s.dead then {} else TurnSamples(s, t, traverse)
  }

  // The samples submitted up to loop head n, of which first were submitted before the run.
  function RunSamples(first: set<(Key, nat)>, states: seq<State>, turns: seq<Turn>, traverse: bool, n: nat)
    : set<(Key, nat)>
    requires n <= |turns| < |states|
  {
    if n == 0 then first
    else RunSamples(first, states, turns, traverse, n - 1) + SamplesAt(states[n - 1], turns[n - 1], traverse)
  }

  // Device and cache are what a sequence of scans and updates makes of w, which submits the given
  // samples; the device was as the client left it at every scan, if undisturbed says so.
  ghost predicate Reached(s: State, w: Wg, parse: Parser, samples: set<(Key, nat)>, undisturbed: bool) {
    exists ops :: s.wg == DoAll(w, ops, parse) && AllSamples(ops) == samples
        && (undisturbed ==> Undisturbed(w, ops, parse))
  }

  // A turn carries that on.
  ghost predicate CarriesOn(s: State, t: Turn, s': State, traverse: bool, parse: Parser, w: Wg) {
    forall samples, undisturbed :: Reached(s, w, parse, samples, undisturbed) ==>
      Reached(s', w, parse, samples + SamplesAt(s, t, traverse), undisturbed && (s.dead || SeesDevice(s, t)))
  }

  lemma TurnCarriesOn(s: State, t: Turn, s': State, traverse: bool, parse: Parser, w: Wg)
    requires Takes(s, t, s', traverse, parse)
    ensures CarriesOn(s, t, s', traverse, parse, w)
  {
    forall samples, undisturbed | Reached(s, w, parse, samples, undisturbed)
      ensures Reached(s', w, parse, samples + SamplesAt(s, t, traverse), undisturbed && (s.dead || SeesDevice(s, t)))
    {
      var ops :| s.wg == DoAll(w, ops, parse) && AllSamples(ops) == samples
          && (undisturbed ==> Undisturbed(w, ops, parse));
      var ops' := TraceDoes(s, t, s', traverse, parse, w, ops);
    }
  }

  lemma TraceDoes(s: State, t: Turn, s': State, traverse: bool, parse: Parser, w: Wg, ops: seq<WgInterface.Op>)
    returns (ops': seq<WgInterface.Op>)
    requires Takes(s, t, s', traverse, parse) && s.wg == DoAll(w, ops, parse)
    ensures s'.wg == DoAll(w, ops', parse) && AllSamples(ops') == AllSamples(ops) + SamplesAt(s, t, traverse)
    ensures Undisturbed(w, ops, parse) && (s.dead || SeesDevice(s, t)) ==> Undisturbed(w, ops', parse)
  {
    ops' := ops;
    if !s.dead {
      ops' := TurnDoes(s, t, traverse, parse, w, ops);
    }
  }

  lemma {:induction false} CarriedOn(states: seq<State>, turns: seq<Turn>, traverse: bool, parse: Parser, n: nat,
                                     w: Wg, first: set<(Key, nat)>, undisturbed: bool)
    requires n <= |turns| && |states| == |turns| + 1 && Reached(states[0], w, parse, first, undisturbed)
    requires forall m :: 0 <= m < |turns| ==> CarriesOn(states[m], turns[m], states[m + 1], traverse, parse, w)
    ensures Reached(states[n], w, parse, RunSamples(first, states, turns, traverse, n),
                    undisturbed && SeesFirst(states, turns, n))
  {
    if n > 0 {
      CarriedOn(states, turns, traverse, parse, n - 1, w, first, undisturbed);
      assert CarriesOn(states[n - 1], turns[n - 1], states[n - 1 + 1], traverse, parse, w);
      assert SeesFirst(states, turns, n) <==>
               SeesFirst(states, turns, n - 1) && (states[n - 1].dead || SeesDevice(states[n - 1], turns[n - 1]));
    }
  }

  // The device and the cache at a loop head of a run are what a sequence of scans and updates makes of
  // what they were before it, which submits the samples that the turns do.
  lemma RunDoes(states: seq<State>, turns: seq<Turn>, traverse: bool, parse: Parser, n: nat,
                w: Wg, first: seq<WgInterface.Op>)
    returns (ops: seq<WgInterface.Op>)
    requires IsTrace(states, turns, traverse, parse) && n <= |turns| && states[0].wg == DoAll(w, first, parse)
    ensures states[n].wg == DoAll(w, ops, parse)
    ensures AllSamples(ops) == RunSamples(AllSamples(first), states, turns, traverse, n)
    ensures Undisturbed(w, first, parse) && SeesFirst(states, turns, n) ==> Undisturbed(w, ops, parse)
  {
    AllCarryOn(states, turns, traverse, parse, w);
    ops := Carried(states, turns, traverse, parse, n, w, first);
  }

  lemma AllCarryOn(states: seq<State>, turns: seq<Turn>, traverse: bool, parse: Parser, w: Wg)
    requires IsTrace(states, turns, traverse, parse)
    ensures forall m :: 0 <= m < |turns| ==> CarriesOn(states[m], turns[m], states[m + 1], traverse, parse, w)
  {
    forall m | 0 <= m < |turns| ensures CarriesOn(states[m], turns[m], states[m + 1], traverse, parse, w) {
      TurnCarriesOn(states[m], turns[m], states[m + 1], traverse, parse, w);
    }
  }

  lemma Carried(states: seq<State>, turns: seq<Turn>, traverse: bool, parse: Parser, n: nat, w: Wg,
                first: seq<WgInterface.Op>)
    returns (ops: seq<WgInterface.Op>)
    requires n <= |turns| && |states| == |turns| + 1 && states[0].wg == DoAll(w, first, parse)
    requires forall m :: 0 <= m < |turns| ==> CarriesOn(states[m], turns[m], states[m + 1], traverse, parse, w)
    ensures states[n].wg == DoAll(w, ops, parse)
    ensures AllSamples(ops) == RunSamples(AllSamples(first), states, turns, traverse, n)
    ensures Undisturbed(w, first, parse) && SeesFirst(states, turns, n) ==> Undisturbed(w, ops, parse)
  {
    var undisturbed := Undisturbed(w, first, parse);
    assert Reached(states[0], w, parse, AllSamples(first), undisturbed);
    CarriedOn(states, turns, traverse, parse, n, w, AllSamples(first), undisturbed);
    ops :| states[n].wg == DoAll(w, ops, parse)
           && AllSamples(ops) == RunSamples(AllSamples(first), states, turns, traverse, n)
           && (undisturbed && SeesFirst(states, turns, n) ==> Undisturbed(w, ops, parse));
  }

  // The daemon starts with one scan of an untracked device.
  lemma StartsWithInit(endpoints: Endpoints, shown: seq<PeerInfo>, parse: Parser)
    ensures Initial(endpoints, shown) == DoAll(Wg(endpoints, map[]), [Init(shown)], parse)
    ensures AllSamples([Init(shown)]) == Samples(Init(shown))
    ensures Shows(endpoints, shown) ==> Undisturbed(Wg(endpoints, map[]), [Init(shown)], parse)
  {
    DoAllExtends(Wg(endpoints, map[]), [], Init(shown), parse);
    assert [] + [Init(shown)] == [Init(shown)];
  }

  // From the start of the daemon on, the cache says of every tracked peer what the device says, as
  // long as only the client moves endpoints; even after turns that failed.
  lemma CacheOfRunIsCoherent(endpoints: Endpoints, shown: seq<PeerInfo>, start: Instant, states: seq<State>,
                             turns: seq<Turn>, traverse: bool, parse: Parser, n: nat)
    requires IsTrace(states, turns, traverse, parse) && states[0] == Start(Initial(endpoints, shown), start)
    requires Shows(endpoints, shown) && n <= |turns| && SeesFirst(states, turns, n)
    ensures Coherent(states[n].wg)
  {
    StartsWithInit(endpoints, shown, parse);
    var ops := RunDoes(states, turns, traverse, parse, n, Wg(endpoints, map[]), [Init(shown)]);
    CacheStaysCoherent(Wg(endpoints, map[]), ops, parse);
  }

  // The samples submitted from the start of the daemon to loop head n.
  function SamplesSoFar(shown: seq<PeerInfo>, states: seq<State>, turns: seq<Turn>, traverse: bool, n: nat)
    : set<(Key, nat)>
    requires n <= |turns| < |states|
  {
    RunSamples(Samples(Init(shown)), states, turns, traverse, n)
  }

  // At every loop head, the counter on record for a peer is the largest sample submitted for it.
  lemma CountersOfRunAreMaxima(endpoints: Endpoints, shown: seq<PeerInfo>, start: Instant, states: seq<State>,
                               turns: seq<Turn>, traverse: bool, parse: Parser, n: nat)
    requires IsTrace(states, turns, traverse, parse) && states[0] == Start(Initial(endpoints, shown), start)
    requires n <= |turns|
    ensures RunningMaximum(states[n].wg.tracker, SamplesSoFar(shown, states, turns, traverse, n))
  {
    StartsWithInit(endpoints, shown, parse);
    var ops := RunDoes(states, turns, traverse, parse, n, Wg(endpoints, map[]), [Init(shown)]);
    CountersAreRunningMaxima(Wg(endpoints, map[]), ops, parse);
  }

  // ---------- The list of inactive peers ----------

  // The list that a turn announces: what its check finds, or else all peers on a new network, or
  // else the list as it was.
  function Listed(s: State, t: Turn, traverse: bool): seq<Key> {
    if IsChecked(s, t, traverse) && t.shown.Some? then QuietKeys(s.wg.tracker, t.shown.value)
    else if Completes(s, t, traverse) then t.all.value
    else s.inactive
  }

  predicate Replaces(s: State, t: Turn, traverse: bool) {
    IsChecked(s, t, traverse) || Completes(s, t, traverse)
  }

  // The client has given k another endpoint.
  predicate Moved(before: Tracker, after: Tracker, k: Key) {
    k in before && k in after && before[k].endpoint != after[k].endpoint
  }

  // Answers are hash maps read with injective parsing; a device shows each peer once.
  ghost predicate Proper(t: Turn, parse: Parser) {
    && (t.shown.Some? ==> DistinctPeers(t.shown.value))
    && forall entries :: Some(entries) in t.tries ==> DistinctKeys(entries, parse)
  }

  lemma {:induction false} ScanKeepsEndpoints(t: Tracker, peers: seq<PeerInfo>)
    ensures t.Keys <= Scan(t, peers).0.Keys
    ensures forall k :: k in t ==> Scan(t, peers).0[k].endpoint == t[k].endpoint
  {
    if peers != [] {
      ScanKeepsEndpoints(t, peers[..|peers| - 1]);
    }
  }

  // A peer found quiet is not entered in the cache by the same scan.
  lemma {:induction false} QuietIsNotEntered(t: Tracker, peers: seq<PeerInfo>, k: Key)
    requires DistinctPeers(peers) && k in QuietKeys(t, peers) && k !in t
    ensures k !in Scan(t, peers).0
  {
    var n := |peers| - 1;
    if k in QuietKeys(t, peers[..n]) {
      QuietIsNotEntered(t, peers[..n], k);
      KeysOfQuiet(t, peers[..n], k);
    } else {
      ScanFindsQuietPeers(t, peers[..n]);
      assert peers[n].key == k;
      assert forall p :: p in peers[..n] ==> p.key != k;
    }
  }

  lemma {:induction false} KeysOfQuiet(t: Tracker, peers: seq<PeerInfo>, k: Key)
    requires k in QuietKeys(t, peers)
    ensures exists i :: 0 <= i < |peers| && peers[i].key == k
  {
    var n := |peers| - 1;
    if k in QuietKeys(t, peers[..n]) {
      KeysOfQuiet(t, peers[..n], k);
      var i :| 0 <= i < n && peers[..n][i].key == k;
      assert peers[i].key == k;
    } else {
      assert peers[n].key == k;
    }
  }

  lemma {:induction false} QuietAmongShown(t: Tracker, peers: seq<PeerInfo>, i: nat)
    requires DistinctPeers(peers) && i < |peers|
    ensures peers[i].key in QuietKeys(t, peers) <==> Quiet(t, peers[i])
  {
    var n := |peers| - 1;
    if i < n {
      QuietAmongShown(t, peers[..n], i);
    } else if peers[n].key in QuietKeys(t, peers[..n]) {
      KeysOfQuiet(t, peers[..n], peers[n].key);
    }
  }

  // A check of a run finds a peer inactive exactly when it never shook hands, or its counter does not
  // exceed every sample submitted for it since the daemon started.
  lemma CheckFindsInactive(endpoints: Endpoints, shown: seq<PeerInfo>, start: Instant, states: seq<State>,
                           turns: seq<Turn>,
                           traverse: bool, parse: Parser, n: nat, i: nat)
    requires IsTrace(states, turns, traverse, parse) && states[0] == Start(Initial(endpoints, shown), start)
    requires n < |turns| && IsChecked(states[n], turns[n], traverse)
    requires turns[n].shown.Some? && DistinctPeers(turns[n].shown.value) && i < |turns[n].shown.value|
    ensures var p := turns[n].shown.value[i];
            p.key in Listed(states[n], turns[n], traverse) <==>
              !p.handshake
              || exists x :: (p.key, x) in SamplesSoFar(shown, states, turns, traverse, n) && p.rx <= x
  {
    var p := turns[n].shown.value[i];
    var t := states[n].wg.tracker;
    CheckIsLogged(states[n], turns[n], traverse, parse);
    CountersOfRunAreMaxima(endpoints, shown, start, states, turns, traverse, parse, n);
    QuietAmongShown(t, turns[n].shown.value, i);
    QuietIsNotAboveSamples(t, SamplesSoFar(shown, states, turns, traverse, n), p);
  }

  lemma QuietIsNotAboveSamples(t: Tracker, samples: set<(Key, nat)>, p: PeerInfo)
    requires RunningMaximum(t, samples)
    ensures Quiet(t, p) <==> !p.handshake || exists x :: (p.key, x) in samples && p.rx <= x
  {
    if p.key in t {
      assert (p.key, t[p.key].rx) in samples;
    }
    forall x | (p.key, x) in samples ensures p.key in t && x <= t[p.key].rx {
      assert (p.key, x).0 in t;
    }
  }

  // An update reports exactly the peers whose endpoint in the cache it changes.
  lemma UpdatedAreMoved(w: Wg, entries: seq<(Str, Endpoint)>, env: Env, parse: Parser, k: Key)
    requires DistinctKeys(entries, parse) && !UpdateAll(w, entries, env, parse).failed
    ensures var o := UpdateAll(w, entries, env, parse); k in o.updated <==> Moved(w.tracker, o.wg.tracker, k)
  {
    UpdateSettles(w, entries, env, parse);
    var o := UpdateAll(w, entries, env, parse);
    if sa :| Wants(entries, env, parse, k, sa) {
      assert Put(w, o, k, sa);
    } else {
      assert WgInterface.Untouched(w, o, k);
    }
  }

  lemma {:induction false} HandleDrops(w: Wg, inactive: seq<Key>, tries: seq<Option<seq<(Str, Endpoint)>>>, env: Env,
                                       parse: Parser, k: Key)
    requires forall entries :: Some(entries) in tries ==> DistinctKeys(entries, parse)
    requires !Handle(w, inactive, tries, env, parse).3
    ensures var (w', left, _, _) := Handle(w, inactive, tries, env, parse);
            k in left <==> k in inactive && !Moved(w.tracker, w'.tracker, k)
    decreases |tries|
  {
    if tries != [] {
      if tries[0].Some? {
        assert Some(tries[0].value) in tries;
        UpdatedAreMoved(w, tries[0].value, env, parse, k);
        WithoutHas(inactive, UpdateAll(w, tries[0].value, env, parse).updated, k);
      } else {
        assert forall x :: x in tries[1..] ==> x in tries;
        HandleDrops(w, inactive, tries[1..], env, parse, k);
      }
    }
  }

  lemma RestLeaves(s: State, t: Turn, status: NetStatus, change: Option<Change>, parse: Parser, k: Key)
    requires Proper(t, parse) && !s.dead && !Rest(s, t, status, change, parse).dead
    ensures var s' := Rest(s, t, status, change, parse);
            var listed := if t.now > s.next
                && t.shown.Some? then QuietKeys(s.wg.tracker, t.shown.value) else s.inactive;
            k in s'.inactive <==> k in listed && !Moved(s.wg.tracker, s'.wg.tracker, k)
  {
    var due := t.now > s.next;
    var w1, list := s.wg, s.inactive;
    if due {
      var ps := t.shown.value;
      w1, list := s.wg.(tracker := Scan(s.wg.tracker, ps).0), Scan(s.wg.tracker, ps).1;
      ScanFindsQuietPeers(s.wg.tracker, ps);
      ScanKeepsEndpoints(s.wg.tracker, ps);
      if k in list && k !in s.wg.tracker {
        QuietIsNotEntered(s.wg.tracker, ps, k);
      }
    }
    if list != [] && s.net.current.Some? {
      var env := t.env.(hasIpv6 := s.net.current.value.wanIpv6.Some?);
      HandleDrops(w1, list, t.tries, env, parse, k);
      HandleKeepsKeys(w1, list, t.tries, env, parse);
    }
  }

  lemma {:induction false} HandleKeepsKeys(w: Wg, inactive: seq<Key>, tries: seq<Option<seq<(Str, Endpoint)>>>,
                                           env: Env, parse: Parser)
    ensures Handle(w, inactive, tries, env, parse).0.tracker.Keys == w.tracker.Keys
    decreases |tries|
  {
    if tries != [] {
      if tries[0].Some? {
        UpdateKeepsCounters(w, tries[0].value, env, parse);
      } else {
        HandleKeepsKeys(w, inactive, tries[1..], env, parse);
      }
    }
  }

  // Every announcement of a turn asks for exactly the peers on its list.
  lemma TurnAnnouncesList(s: State, t: Turn, traverse: bool, parse: Parser, a: Announce)
    requires Proper(t, parse) && !s.dead && a in EntryOf(s, t, traverse, parse).announced
    ensures a.peers == Listed(s, t, traverse)
  {
    var status := Check(s.net, t.info).1;
    var s1 := s.(net := Check(s.net, t.info).0);
    if status == ChangedToNew {
      var (s2, change) := OnChange(s1, t, traverse);
      if change.Some? {
        RestEntry(s2, t, status, change, parse);
      }
    } else if status in {StillOnline, ChangedToPrev} {
      RestEntry(s1, t, status, None, parse);
    }
    if t.shown.Some? {
      ScanFindsQuietPeers(s.wg.tracker, t.shown.value);
    }
  }

  // After a turn, the list has what the turn announced, without the peers it moved.
  lemma TurnLeaves(s: State, t: Turn, traverse: bool, parse: Parser, k: Key)
    requires Proper(t, parse) && !s.dead && !Iterate(s, t, traverse, parse).dead
    ensures var s' := Iterate(s, t, traverse, parse);
            k in s'.inactive <==> k in Listed(s, t, traverse) && !Moved(s.wg.tracker, s'.wg.tracker, k)
  {
    var status := Check(s.net, t.info).1;
    var s1 := s.(net := Check(s.net, t.info).0);
    if status == ChangedToNew {
      var (s2, change) := OnChange(s1, t, traverse);
      if change.Some? {
        RestEntry(s2, t, status, change, parse);
        RestLeaves(s2, t, status, change, parse, k);
      }
    } else if status in {StillOnline, ChangedToPrev} {
      RestEntry(s1, t, status, None, parse);
      RestLeaves(s1, t, status, None, parse, k);
    }
  }

  // Turn i was the last one to make a new list.
  ghost predicate ListedLast(states: seq<State>, turns: seq<Turn>, traverse: bool, i: nat)
    requires |states| == |turns| + 1
  {
    && i < |turns| && Replaces(states[i], turns[i], traverse)
    && forall m :: i < m < |turns| ==> !Replaces(states[m], turns[m], traverse)
  }

  // Turn m gives k another endpoint.
  predicate MovedIn(states: seq<State>, m: nat, k: Key)
    requires m + 1 < |states|
  {
    Moved(states[m].wg.tracker, states[m + 1].wg.tracker, k)
  }

  lemma ListStays(s: State, t: Turn, traverse: bool)
    requires !Replaces(s, t, traverse)
    ensures Listed(s, t, traverse) == s.inactive
  {
  }

  // One turn of a run in which turn i is the last one to make a list.
  lemma ListLink(states: seq<State>, turns: seq<Turn>, traverse: bool, parse: Parser, i: nat, m: nat, k: Key)
    requires IsTrace(states, turns, traverse, parse) && ListedLast(states, turns, traverse, i)
    requires i <= m < |turns| && Proper(turns[m], parse) && !states[m + 1].dead
    ensures k in states[m + 1].inactive <==>
              && !MovedIn(states, m, k)
              && if m == i then k in Listed(states[i], turns[i], traverse) else k in states[m].inactive
  {
    var s, t, s' := states[m], turns[m], states[m + 1];
    assert Takes(s, t, s', traverse, parse);
    AliveBefore(states, turns, traverse, parse, m, m + 1);
    TurnLeaves(s, t, traverse, parse, k);
    if m > i {
      ListStays(s, t, traverse);
    }
  }

  // What is dropped once stays dropped: inside[m] tells whether something is there before step m.
  lemma {:induction false} DroppedOnce(inside: seq<bool>, moved: seq<bool>, listed: bool, i: nat, n: nat)
    requires i < n <= |moved| && |inside| == |moved| + 1
    requires forall m :: i <= m < n ==> (inside[m + 1] <==> !moved[m] && if m == i then listed else inside[m])
    ensures inside[n] <==> listed && forall m :: i <= m < n ==> !moved[m]
  {
    if i < n - 1 {
      DroppedOnce(inside, moved, listed, i, n - 1);
    }
    assert inside[n - 1 + 1] <==> !moved[n - 1] && if n - 1 == i then listed else inside[n - 1];
  }

  // A peer is on the list at the end of a run exactly when it was on it when the list was last
  // made, in turn i, and has not been given another endpoint since.
  lemma InactiveUntilMoved(states: seq<State>, turns: seq<Turn>, traverse: bool, parse: Parser, i: nat, k: Key)
    requires IsTrace(states, turns, traverse, parse) && (forall t :: t in turns ==> Proper(t, parse))
    requires ListedLast(states, turns, traverse, i) && !states[|turns|].dead
    ensures k in states[|turns|].inactive <==>
              && k in Listed(states[i], turns[i], traverse)
              && forall m :: i <= m < |turns| ==> !MovedIn(states, m, k)
  {
    var n := |turns|;
    var listed := k in Listed(states[i], turns[i], traverse);
    var inside := seq(n + 1, m requires 0 <= m <= n => k in states[m].inactive);
    var moved := seq(n, m requires 0 <= m < n => MovedIn(states, m, k));
    forall m | i <= m < n ensures inside[m + 1] <==> !moved[m] && if m == i then listed else inside[m] {
      AliveBefore(states, turns, traverse, parse, m + 1, n);
      assert turns[m] in turns;
      ListLink(states, turns, traverse, parse, i, m, k);
    }
    DroppedOnce(inside, moved, listed, i, n);
    assert forall m :: i <= m < n ==> moved[m] == MovedIn(states, m, k);
  }

  // ---------- What an answer does ----------

  // The x-th announcement of a turn is the first to be answered, with these entries.
  predicate AnsweredBy(t: Turn, x: nat, entries: seq<(Str, Endpoint)>) {
    x < |t.tries| && t.tries[x] == Some(entries) && forall y :: 0 <= y < x ==> t.tries[y].None?
  }

  lemma {:induction false} HandleTakesFirst(w: Wg, inactive: seq<Key>, tries: seq<Option<seq<(Str, Endpoint)>>>,
                                            env: Env,
                                            parse: Parser, x: nat)
    requires x < |tries| && tries[x].Some? && forall y :: 0 <= y < x ==> tries[y].None?
    ensures var o := UpdateAll(w, tries[x].value, env, parse);
            var h := Handle(w, inactive, tries, env, parse);
            h.0 == o.wg && h.3 == o.failed
    decreases x
  {
    if x > 0 {
      HandleTakesFirst(w, inactive, tries[1..], env, parse, x - 1);
    }
  }

  // Device and cache after the turn's check.
  function CheckedWg(s: State, t: Turn, traverse: bool): Wg {
    if IsChecked(s, t, traverse) && t.shown.Some? then s.wg.(tracker := Scan(s.wg.tracker, t.shown.value).0) else s.wg
  }

  lemma RestUpdates(s: State, t: Turn, status: NetStatus, change: Option<Change>, parse: Parser, a: Announce, x: nat,
                    entries: seq<(Str, Endpoint)>)
    requires AnsweredBy(t, x, entries) && a in Rest(s, t, status, change, parse).log[|s.log|].announced
    ensures var o := UpdateAll(Checked(s, t).wg, entries, t.env.(hasIpv6 := a.network.wanIpv6.Some?), parse);
            var s' := Rest(s, t, status, change, parse);
            s'.wg == o.wg && s'.dead == o.failed
  {
    var s1 := Checked(s, t);
    var env := t.env.(hasIpv6 := s1.net.current.value.wanIpv6.Some?);
    HandleTakesFirst(s1.wg, s1.inactive, t.tries, env, parse, x);
  }

  // A turn that announces and is answered leaves the device and the cache as an update by that answer
  // does, after its check; and it ends the daemon exactly when that update fails.
  lemma TurnUpdates(s: State, t: Turn, traverse: bool, parse: Parser, a: Announce, x: nat,
                    entries: seq<(Str, Endpoint)>)
    requires a in EntryOf(s, t, traverse, parse).announced && AnsweredBy(t, x, entries)
    ensures var env := t.env.(hasIpv6 := a.network.wanIpv6.Some?);
            var o := UpdateAll(CheckedWg(s, t, traverse), entries, env, parse);
            var s' := Iterate(s, t, traverse, parse);
            s'.wg == o.wg && s'.dead == o.failed
  {
    var status := Check(s.net, t.info).1;
    var s1 := s.(net := Check(s.net, t.info).0);
    if status == ChangedToNew {
      var (s2, change) := OnChange(s1, t, traverse);
      if change.Some? {
        RestEntry(s2, t, status, change, parse);
        RestUpdates(s2, t, status, change, parse, a, x, entries);
      }
    } else if status in {StillOnline, ChangedToPrev} {
      RestEntry(s1, t, status, None, parse);
      RestUpdates(s1, t, status, None, parse, a, x, entries);
    }
  }

}
