// The client's endless loop: watch the network, pick and announce a port, look for quiet peers
// and ask the server about them. What the surroundings do in one turn of the loop is a Turn.
module Daemon {
  import opened Wrappers
  import opened Net
  import opened Text
  import opened Protocol
  import opened Nat
  import opened NetStat
  import opened WgInterface

  type Instant = int

  const SECOND: Instant := 1_000_000_000
  const PERIOD: Instant := 25 * SECOND
  const MAX_ANNOUNCE_RETRIES := 3

  // One turn's inputs: the network seen, the random port, the NAT detection (None failed),
  // whether the device takes the port, its peers (None cannot be read), the time, what the device
  // shows to a scan, the server's answers to up to three announcements (None failed), and what
  // updating the device meets with.
  datatype Turn = Turn(
    info: NetInfo,
    newPort: uint16,
    detection: Option<NatKind>,
    portSet: bool,
    all: Option<seq<Key>>,
    now: Instant,
    shown: Option<seq<PeerInfo>>,
    tries: seq<Option<seq<(Str, Endpoint)>>>,
    env: Env)

  predicate ValidTurn(t: Turn) {
    !t.info.hardNat && t.newPort >= 1024 && |t.tries| == MAX_ANNOUNCE_RETRIES
  }

  // An announcement: whom it asks for, from which network, with which port while the device listens on
  // listen, and whether it asks for a relay.
  datatype Announce = Announce(
    peers: seq<Key>,
    network: NetInfo,
    port: uint16,
    listen: Option<uint16>,
    needsRelay: bool)

  // A port taken into use, with what the detection for it said (None without NAT traversal).
  datatype Change = Change(listen: uint16, kind: Option<NatKind>)

  // What happened in one turn.
  datatype Entry = Entry(
    info: NetInfo,
    status: NetStatus,
    change: Option<Change>,
    check: Option<Instant>,
    announced: seq<Announce>)

  // The loop's variables, the device and the cache; log and dead only record.
  datatype State = State(
    net: Slots,
    wg: Wg,
    listen: Option<uint16>,
    port: uint16,
    inactive: seq<Key>,
    next: Instant,
    log: seq<Entry>,
    dead: bool)

  // The cache as the daemon fills it when it starts.
  function Initial(endpoints: Endpoints, shown: seq<PeerInfo>): Wg {
    Wg(endpoints, InitFirst(map[], shown))
  }

  function Start(w: Wg, now: Instant): State {
    State(EMPTY, w, None, 0, [], now + PERIOD, [], false)
  }

  function Without(ks: seq<Key>, gone: seq<Key>): seq<Key> {
    if ks == [] then []
    else Without(ks[..|ks| - 1], gone) + (if ks[|ks| - 1] in gone then [] else [ks[|ks| - 1]])
  }

  // idx are, in order, the places in ks of what is not in gone; left is what is there.
  ghost predicate Picks(idx: seq<nat>, left: seq<Key>, ks: seq<Key>, gone: seq<Key>) {
    && |idx| == |left|
    && (forall m :: 0 <= m < |idx| ==> idx[m] < |ks| && left[m] == ks[idx[m]])
    && (forall m, n :: 0 <= m < n < |idx| ==> idx[m] < idx[n])
    && (forall i :: 0 <= i < |ks| ==> (ks[i] !in gone <==> i in idx))
  }

  // left has the members of ks that are not in gone, in their order and as often.
  ghost predicate IsRest(left: seq<Key>, ks: seq<Key>, gone: seq<Key>) {
    exists idx :: Picks(idx, left, ks, gone)
  }

  lemma PicksExtends(idx: seq<nat>, left: seq<Key>, past: seq<Key>, k: Key, gone: seq<Key>) returns (idx': seq<nat>)
    requires Picks(idx, left, past, gone)
    ensures Picks(idx', left + (if k in gone then [] else [k]), past + [k], gone)
  {
    var n: nat := |past|;
    if k in gone {
      assert left + [] == left;
      assert forall m :: 0 <= m < |idx| ==> idx[m] != n;
      idx' := idx;
    } else {
      idx' := idx + [n];
      assert forall i: nat :: i in idx' <==> i in idx || i == n;
    }
  }

  lemma {:induction false} PickRest(ks: seq<Key>, gone: seq<Key>) returns (idx: seq<nat>)
    ensures Picks(idx, Without(ks, gone), ks, gone)
  {
    if ks == [] {
      idx := [];
    } else {
      var n := |ks| - 1;
      idx := PickRest(ks[..n], gone);
      idx := PicksExtends(idx, Without(ks[..n], gone), ks[..n], ks[n], gone);
      assert ks == ks[..n] + [ks[n]];
    }
  }

  lemma {:induction false} WithoutHas(ks: seq<Key>, gone: seq<Key>, k: Key)
    ensures k in Without(ks, gone) <==> k in ks && k !in gone
  {
    if ks != [] {
      WithoutHas(ks[..|ks| - 1], gone, k);
      assert ks == ks[..|ks| - 1] + [ks[|ks| - 1]];
    }
  }

  // The first answered announcement updates the device; peers that were moved leave the list.
  // Returns the state, the list, how many announcements were made, and whether updating failed.
  function Handle(w: Wg, inactive: seq<Key>, tries: seq<Option<seq<(Str, Endpoint)>>>, env: Env,
                  parse: Str -> Option<Key>)
    : (Wg, seq<Key>, nat, bool)
    decreases |tries|
  {
    if tries == [] then (w, inactive, 0, false)
    else if tries[0].None? then
      var (w', left, n, failed) := Handle(w, inactive, tries[1..], env, parse);
      (w', left, n + 1, failed)
    else
      var o := UpdateAll(w, tries[0].value, env, parse);
      (o.wg, if o.failed then inactive else Without(inactive, o.updated), 1, o.failed)
  }

  function Repeat<T>(n: nat, x: T): (s: seq<T>)
    ensures |s| == n && forall y :: y in s ==> y == x
  {
    seq(n, _ => x)
  }

  // The part of a turn on a changed network: None stops the turn, or the daemon when dead.
  function OnChange(s: State, t: Turn, traverse: bool): (State, Option<Change>) {
    if traverse && t.detection.None? then (s, None)
    else
      var kind := if traverse then t.detection else None;
      var s1 := s.(port := if kind.Some? then PortToAnnounce(kind.value, t.newPort) else t.newPort,
                   net := if kind == Some(Hard) then SetHard(s.net, true) else s.net);
      if !t.portSet then (s1.(dead := true), None)
      else if t.all.None? then (s1.(listen := Some(t.newPort), dead := true), None)
      else
        (s1.(listen := Some(t.newPort), inactive := t.all.value, next := s.next + PERIOD),
         Some(Change(t.newPort, kind)))
  }

  // The inactivity check, when it is due; a device that cannot be read ends the daemon.
  function Checked(s: State, t: Turn): State {
    if t.now <= s.next then s
    else if t.shown.None? then s.(next := s.next + PERIOD, inactive := [], dead := true)
    else
      s.(next := s.next + PERIOD,
         inactive := Scan(s.wg.tracker, t.shown.value).1,
         wg := s.wg.(tracker := Scan(s.wg.tracker, t.shown.value).0))
  }

  // The part after the network: the inactivity check, and the announcement.
  function Rest(s: State, t: Turn, status: NetStatus, change: Option<Change>, parse: Str -> Option<Key>): State {
    var s1 := Checked(s, t);
    var check := CheckMade(s, t);
    if check.Some? && t.shown.None? then s1.(log := s.log + [Entry(t.info, status, change, check, [])])
    else if s1.inactive == [] || s1.net.current.None? then
      s1.(log := s.log + [Entry(t.info, status, change, check, [])])
    else
      var env := t.env.(hasIpv6 := s1.net.current.value.wanIpv6.Some?);
      var (w, left, n, failed) := Handle(s1.wg, s1.inactive, t.tries, env, parse);
      var a := Announce(s1.inactive, s1.net.current.value, s1.port, s1.listen, Relayed(s1.net));
      s1.(wg := w, inactive := left, dead := failed,
          log := s.log + [Entry(t.info, status, change, check, Repeat(n, a))])
  }

  // The check that a turn at s logs.
  function CheckMade(s: State, t: Turn): Option<Instant> {
    if t.now > s.next then Some(t.now) else None
  }

  lemma RestQuiet(s: State, t: Turn, status: NetStatus, change: Option<Change>, parse: Str -> Option<Key>)
    requires !s.dead
    requires var s1 := Checked(s, t); s1.dead || s1.inactive == [] || s1.net.current.None?
    ensures var s1 := Checked(s, t);
            Rest(s, t, status, change, parse) ==
            s1.(log := s1.log + [Entry(t.info, status, change, CheckMade(s, t), [])])
  {
  }

  lemma RestAnnounced(s: State, t: Turn, status: NetStatus, change: Option<Change>, parse: Str -> Option<Key>,
                      w: Wg, left: seq<Key>, n: nat, failed: bool)
    requires !s.dead
    requires var s1 := Checked(s, t);
             && !s1.dead && s1.inactive != [] && s1.net.current.Some?
             && (w, left, n, failed) ==
                Handle(s1.wg, s1.inactive, t.tries, t.env.(hasIpv6 := s1.net.current.value.wanIpv6.Some?), parse)
    ensures var s1 := Checked(s, t);
            var a := Announce(s1.inactive, s1.net.current.value, s1.port, s1.listen, Relayed(s1.net));
            Rest(s, t, status, change, parse) ==
            s1.(wg := w, inactive := left, dead := failed,
                log := s1.log + [Entry(t.info, status, change, CheckMade(s, t), Repeat(n, a))])
  {
  }

  function Iterate(s: State, t: Turn, traverse: bool, parse: Str -> Option<Key>): State {
    var (net, status) := Check(s.net, t.info);
    var s1 := s.(net := net);
    match status
    case Offline => s1.(log := s.log + [Entry(t.info, status, None, None, [])])
    case HardNat => s1.(log := s.log + [Entry(t.info, status, None, None, [])])
    case ChangedToNew =>
      var (s2, change) := OnChange(s1, t, traverse);
      if change.None? then s2.(log := s.log + [Entry(t.info, status, None, None, [])])
      else Rest(s2, t, status, change, parse)
    case _ => Rest(s1, t, status, None, parse)
  }

  function Run(s: State, turns: seq<Turn>, traverse: bool, parse: Str -> Option<Key>): State {
    if turns == [] then s
    else
      var before := Run(s, turns[..|turns| - 1], traverse, parse);
      if before.dead then before else Iterate(before, turns[|turns| - 1], traverse, parse)
  }

  // ---------- Traces ----------

  // One turn, from one loop head to the next; a dead daemon makes no more turns.
  ghost predicate Takes(s: State, t: Turn, s': State, traverse: bool, parse: Str -> Option<Key>) {
    s' == if s.dead then s else Iterate(s, t, traverse, parse)
  }

  // The states at the loop heads of a run.
  ghost predicate IsTrace(states: seq<State>, turns: seq<Turn>, traverse: bool, parse: Str -> Option<Key>) {
    && |states| == |turns| + 1
    && forall m :: 0 <= m < |turns| ==> Takes(states[m], turns[m], states[m + 1], traverse, parse)
  }

  lemma {:induction false} RunHasTrace(s: State, turns: seq<Turn>, traverse: bool, parse: Str -> Option<Key>)
    returns (states: seq<State>)
    ensures IsTrace(states, turns, traverse, parse) && states[0] == s
        && states[|turns|] == Run(s, turns, traverse, parse)
    ensures turns != [] ==> states[|turns| - 1] == Run(s, turns[..|turns| - 1], traverse, parse)
  {
    if turns == [] {
      states := [s];
    } else {
      var n := |turns| - 1;
      var past := turns[..n];
      var before := RunHasTrace(s, past, traverse, parse);
      states := before + [Run(s, turns, traverse, parse)];
      TraceExtends(before, past, turns[n], states[n + 1], traverse, parse);
      assert past + [turns[n]] == turns;
    }
  }

  lemma TraceExtends(states: seq<State>, turns: seq<Turn>, t: Turn, s: State, traverse: bool, parse: Str -> Option<Key>)
    requires IsTrace(states, turns, traverse, parse) && Takes(states[|turns|], t, s, traverse, parse)
    ensures IsTrace(states + [s], turns + [t], traverse, parse)
  {
    forall m | 0 <= m < |turns + [t]|
      ensures Takes((states + [s])[m], (turns + [t])[m], (states + [s])[m + 1], traverse, parse)
    {
      if m < |turns| {
        assert Takes(states[m], turns[m], states[m + 1], traverse, parse);
      }
    }
  }

  lemma {:induction false} TraceStaysDead(states: seq<State>, turns: seq<Turn>, traverse: bool,
                                          parse: Str -> Option<Key>,
                                          i: nat, n: nat)
    requires IsTrace(states, turns, traverse, parse) && i <= n <= |turns| && states[i].dead
    ensures states[n] == states[i]
  {
    if i < n {
      TraceStaysDead(states, turns, traverse, parse, i, n - 1);
      assert Takes(states[n - 1], turns[n - 1], states[n - 1 + 1], traverse, parse);
    }
  }

  lemma {:induction false} AliveBefore(states: seq<State>, turns: seq<Turn>, traverse: bool,
                                       parse: Str -> Option<Key>, m: nat,
                                       n: nat)
    requires IsTrace(states, turns, traverse, parse) && m <= n <= |turns| && !states[n].dead
    ensures !states[m].dead
  {
    if m < n {
      assert Takes(states[n - 1], turns[n - 1], states[n - 1 + 1], traverse, parse);
      AliveBefore(states, turns, traverse, parse, m, n - 1);
    }
  }

  // ---------- The loop itself ----------

  method HandleInactivePeers(w: Wg, peers: seq<Key>, t: Turn, hasIpv6: bool, parse: Str -> Option<Key>)
    returns (w': Wg, left: seq<Key>, announced: nat, failed: bool)
    requires ValidTurn(t)
    ensures (w', left, announced, failed) == Handle(w, peers, t.tries, t.env.(hasIpv6 := hasIpv6), parse)
    ensures 1 <= announced <= MAX_ANNOUNCE_RETRIES && forall i :: 0 <= i < announced - 1 ==> t.tries[i].None?
    ensures match t.tries[announced - 1]
            case None => announced == MAX_ANNOUNCE_RETRIES && w' == w && left == peers && !failed
            case Some(entries) =>
              var o := UpdateAll(w, entries, t.env.(hasIpv6 := hasIpv6), parse);
              w' == o.wg && failed == o.failed && if failed then left == peers else IsRest(left, peers, o.updated)
  {
    var env := t.env.(hasIpv6 := hasIpv6);
    announced := 0;
    for i := 0 to MAX_ANNOUNCE_RETRIES
      invariant announced == i && forall j :: 0 <= j < i ==> t.tries[j].None?
      invariant var (w1, l1, n1, f1) := Handle(w, peers, t.tries[i..], env, parse);
                Handle(w, peers, t.tries, env, parse) == (w1, l1, n1 + i, f1)
    {
      assert t.tries[i..][0] == t.tries[i] && t.tries[i..][1..] == t.tries[i + 1..];
      announced := announced + 1;
      if t.tries[i].Some? {
        var o := UpdateAll(w, t.tries[i].value, env, parse);
        if o.failed {
          return o.wg, peers, announced, true;
        }
        left := peers;
        ghost var places := PickRest(peers, o.updated);
        if o.updated != [] {
          left := Without(peers, o.updated);
        } else {
          WithoutNothing(peers);
        }
        return o.wg, left, announced, false;
      }
    }
    return w, peers, announced, false;
  }

  lemma {:induction false} WithoutNothing(ks: seq<Key>)
    ensures Without(ks, []) == ks
  {
    if ks != [] {
      WithoutNothing(ks[..|ks| - 1]);
    }
  }

  // The loop's variables; log records what happened and decides nothing.
  class Monitor {
    const netmon: NetworkMonitor
    var wg: Wg
    var listen: Option<uint16>
    var portToAnnounce: uint16
    var inactivePeers: seq<Key>
    var nextInactivityCheck: Instant
    var dead: bool
    ghost var log: seq<Entry>

    ghost function Contents(): State
      reads this, netmon
    {
      State(netmon.Contents(), wg, listen, portToAnnounce, inactivePeers, nextInactivityCheck, log, dead)
    }

    constructor (w: Wg, now: Instant)
      ensures fresh(netmon) && Contents() == Start(w, now)
    {
      netmon := new NetworkMonitor();
      wg, listen, portToAnnounce, inactivePeers, nextInactivityCheck := w, None, 0, [], now + PERIOD;
      dead, log := false, [];
    }

    // Returns whether the turn goes on.
    method ChangeNetwork(t: Turn, traverse: bool) returns (goesOn: bool, ghost change: Option<Change>)
      requires !dead
      modifies this, netmon
      ensures (Contents(), change) == OnChange(old(Contents()), t, traverse)
      ensures goesOn == change.Some?
    {
      change := None;
      if traverse {
        if t.detection.None? {
          return false, None;
        }
        portToAnnounce := PortToAnnounce(t.detection.value, t.newPort);
        if t.detection.value.Hard? {
          netmon.SetHardNat(true);
        }
      } else {
        portToAnnounce := t.newPort;
      }
      if !t.portSet {
        dead := true;
        return false, None;
      }
      listen := Some(t.newPort);
      if t.all.None? {
        dead := true;
        return false, None;
      }
      inactivePeers := t.all.value;
      nextInactivityCheck := nextInactivityCheck + PERIOD;
      return true, Some(Change(t.newPort, if traverse then t.detection else None));
    }

    method CheckInactivity(t: Turn)
      requires !dead
      modifies this
      ensures Contents() == Checked(old(Contents()), t)
    {
      if t.now > nextInactivityCheck {
        nextInactivityCheck := nextInactivityCheck + PERIOD;
        inactivePeers := [];
        if t.shown.None? {
          dead := true;
          return;
        }
        var (tracker, quiet) := Scan(wg.tracker, t.shown.value);
        wg, inactivePeers := wg.(tracker := tracker), quiet;
      }
    }

    method CheckAndAnnounce(t: Turn, status: NetStatus, ghost change: Option<Change>, parse: Str -> Option<Key>)
      requires ValidTurn(t) && !dead
      modifies this
      ensures Contents() == Rest(old(Contents()), t, status, change, parse)
    {
      ghost var before := Contents();
      CheckInactivity(t);
      if dead || inactivePeers == [] || netmon.current.None? {
        RestQuiet(before, t, status, change, parse);
        log := log + [Entry(t.info, status, change, CheckMade(before, t), [])];
        return;
      }
      ghost var a := Announce(inactivePeers, netmon.current.value, portToAnnounce, listen, netmon.NeedsRelay());
      var announced;
      wg, inactivePeers, announced, dead :=
        HandleInactivePeers(wg, inactivePeers, t, netmon.current.value.wanIpv6.Some?, parse);
      RestAnnounced(before, t, status, change, parse, wg, inactivePeers, announced, dead);
      log := log + [Entry(t.info, status, change, CheckMade(before, t), Repeat(announced, a))];
    }

    method TakeTurn(t: Turn, traverse: bool, parse: Str -> Option<Key>)
      requires ValidTurn(t) && !dead
      modifies this, netmon
      ensures Contents() == Iterate(old(Contents()), t, traverse, parse)
    {
      var status := netmon.CheckStatus(t.info);
      if status.Offline? || status.HardNat? {
        log := log + [Entry(t.info, status, None, None, [])];
        return;
      }
      ghost var change := None;
      if status.ChangedToNew? {
        var goesOn;
        goesOn, change := ChangeNetwork(t, traverse);
        if !goesOn {
          log := log + [Entry(t.info, status, None, None, [])];
          return;
        }
      }
      CheckAndAnnounce(t, status, change, parse);
    }

    // The loop over as many turns as the surroundings give it, or until an error ends it.
    method TakeTurns(ghost first: State, turns: seq<Turn>, traverse: bool, parse: Str -> Option<Key>)
      requires Contents() == first && forall t :: t in turns ==> ValidTurn(t)
      modifies this, netmon
      ensures Contents() == Run(first, turns, traverse, parse)
    {
      ghost var states := RunHasTrace(first, turns, traverse, parse);
      var i := 0;
      while i < |turns| && !dead
        invariant i <= |turns| && Contents() == states[i]
        decreases |turns| - i
      {
        assert turns[i] in turns && Takes(states[i], turns[i], states[i + 1], traverse, parse);
        TakeTurn(turns[i], traverse, parse);
        i := i + 1;
      }
      if dead {
        TraceStaysDead(states, turns, traverse, parse, i, |turns|);
      }
    }
  }

  lemma RunStep(s: State, turns: seq<Turn>, i: nat, traverse: bool, parse: Str -> Option<Key>)
    requires i < |turns| && !Run(s, turns[..i], traverse, parse).dead
    ensures Run(s, turns[..i + 1], traverse, parse)
        == Iterate(Run(s, turns[..i], traverse, parse), turns[i], traverse, parse)
  {
    assert turns[..i + 1][..i] == turns[..i];
  }

  // The daemon: first every peer that the device shows is entered in the cache (None when the
  // device cannot be read, which ends the daemon at once), then comes the loop.
  method MonitorInterface(endpoints: Endpoints, shown: Option<seq<PeerInfo>>, start: Instant, turns: seq<Turn>,
                          traverse: bool, parse: Str -> Option<Key>)
    returns (m: Option<Monitor>)
    requires forall t :: t in turns ==> ValidTurn(t)
    ensures m.Some? == shown.Some?
    ensures m.Some? ==> fresh(m.value)
    ensures m.Some? ==>
              m.value.Contents() == Run(Start(Initial(endpoints, shown.value), start), turns, traverse, parse)
  {
    if shown.None? {
      return None;
    }
    var monitor := new Monitor(Initial(endpoints, shown.value), start);
    monitor.TakeTurns(monitor.Contents(), turns, traverse, parse);
    return Some(monitor);
  }

}
