// What every run of the client's loop keeps true of its timer, its ports and its announcements.
module DaemonRuns {
  import opened Wrappers
  import opened Net
  import opened Text
  import opened Nat
  import opened NetStat
  import opened WgInterface
  import opened Daemon

  // ---------- Reading the log ----------

  function Changes(log: seq<Entry>): nat {
    if log == [] then 0 else Changes(log[..|log| - 1]) + (if log[|log| - 1].change.Some? then 1 else 0)
  }

  function Checks(log: seq<Entry>): nat {
    if log == [] then 0 else Checks(log[..|log| - 1]) + (if log[|log| - 1].check.Some? then 1 else 0)
  }

  // The port last taken into use.
  function LastChange(log: seq<Entry>): Option<Change> {
    if log == [] then None
    else if log[|log| - 1].change.Some? then log[|log| - 1].change
    else LastChange(log[..|log| - 1])
  }

  // The last inactivity check, and the network changes completed since.
  function LastCheck(log: seq<Entry>): Option<(Instant, nat)> {
    if log == [] then None
    else
      var e := log[|log| - 1];
      if e.check.Some? then Some((e.check.value, 0))
      else
        match LastCheck(log[..|log| - 1])
        case None => None
        case Some((t, n)) => Some((t, if e.change.Some? then n + 1 else n))
  }

  // Whether the last change of network was completed.
  predicate Completed(log: seq<Entry>) {
    log != [] &&
    (if log[|log| - 1].status == ChangedToNew then log[|log| - 1].change.Some? else Completed(log[..|log| - 1]))
  }

  // The port that goes with a change: what the NAT was seen to map the listen port to, when that is
  // another port for everyone, and otherwise the listen port itself.
  function AnnouncedPort(c: Option<Change>): uint16 {
    match c
    case None => 0
    case Some(Change(_, Some(FixedPortMapping(_, observed)))) => observed
    case Some(Change(listen, _)) => listen
  }

  function ListenPort(c: Option<Change>): Option<uint16> { if c.Some? then Some(c.value.listen) else None }

  // ---------- The invariant ----------

  ghost predicate NetOk(m: Slots) {
    && (m.current.None? <==> m.lastOnline.None?)
    && (m.lastOnline.Some? ==> !m.lastOnline.value.hardNat)
    && (m.current.Some? && m.current.value.Online() ==> m.current.value.SameAs(m.lastOnline.value))
  }

  ghost predicate TimerOk(start: Instant, log: seq<Entry>, next: Instant) {
    && next == start + PERIOD * (1 + Changes(log) + Checks(log))
    && (LastCheck(log).Some? ==> next < LastCheck(log).value.0 + PERIOD * (1 + LastCheck(log).value.1))
    && (LastCheck(log).None? ==> Checks(log) == 0)
  }

  // An entry, given the ones before it.
  ghost predicate EntryOk(start: Instant, past: seq<Entry>, e: Entry) {
    && (e.check.Some? ==> PERIOD * (Changes(past + [e]) + Checks(past + [e])) < e.check.value - start)
    && (forall a :: a in e.announced ==>
          && a.port == AnnouncedPort(LastChange(past + [e])) && a.listen == ListenPort(LastChange(past + [e]))
          && (a.needsRelay <==> e.change.Some? && e.change.value.kind == Some(Hard))
          && a.network.SameAs(e.info))
    && (e.announced != [] ==> e.status in {StillOnline, ChangedToPrev, ChangedToNew})
  }

  ghost predicate Inv(start: Instant, s: State) {
    && NetOk(s.net)
    && (!s.dead ==> TimerOk(start, s.log, s.next))
    && (!s.dead ==> s.port == AnnouncedPort(LastChange(s.log)) && s.listen == ListenPort(LastChange(s.log)))
    && (forall i :: 0 <= i < |s.log| ==> EntryOk(start, s.log[..i], s.log[i]))
  }

  lemma LogExtends(log: seq<Entry>, e: Entry)
    ensures Changes(log + [e]) == Changes(log) + (if e.change.Some? then 1 else 0)
    ensures Checks(log + [e]) == Checks(log) + (if e.check.Some? then 1 else 0)
    ensures LastChange(log + [e]) == if e.change.Some? then e.change else LastChange(log)
    ensures LastCheck(log + [e]) == if e.check.Some? then Some((e.check.value, 0))
                                    else if LastCheck(log).None? then None
                                    else Some((LastCheck(log).value.0,
                                               LastCheck(log).value.1 + (if e.change.Some? then 1 else 0)))
    ensures Completed(log + [e]) <==> if e.status == ChangedToNew then e.change.Some? else Completed(log)
  {
  }

  lemma EntriesExtend(start: Instant, log: seq<Entry>, e: Entry)
    requires forall i :: 0 <= i < |log| ==> EntryOk(start, log[..i], log[i])
    requires EntryOk(start, log, e)
    ensures forall i :: 0 <= i < |log + [e]| ==> EntryOk(start, (log + [e])[..i], (log + [e])[i])
  {
    forall i | 0 <= i < |log + [e]| ensures EntryOk(start, (log + [e])[..i], (log + [e])[i]) {
      if i < |log| {
        assert (log + [e])[..i] == log[..i];
      } else {
        assert (log + [e])[..i] == log;
      }
    }
  }

  // What Rest does, apart from the device and the list.
  lemma RestWrites(s: State, t: Turn, status: NetStatus, change: Option<Change>, parse: Str -> Option<Key>)
    returns (e: Entry)
    requires !s.dead
    ensures var s' := Rest(s, t, status, change, parse);
            && s'.log == s.log + [e] && s'.net == s.net && s'.port == s.port && s'.listen == s.listen
            && s'.next == s.next + (if e.check.Some? then PERIOD else 0)
    ensures e.info == t.info && e.status == status && e.change == change
    ensures e.check == if t.now > s.next then Some(t.now) else None
    ensures forall a :: a in e.announced ==> a.port == s.port && a.listen == s.listen && a.needsRelay == Relayed(s.net)
    ensures forall a :: a in e.announced ==> s.net.current == Some(a.network)
  {
    e := Rest(s, t, status, change, parse).log[|s.log|];
  }

  // The timer, seen from the middle of a turn: the change of the turn is made, its check is not.
  ghost predicate TimerMid(start: Instant, log: seq<Entry>, change: Option<Change>, next: Instant) {
    var extra := if change.Some? then 1 else 0;
    && next == start + PERIOD * (1 + Changes(log) + Checks(log) + extra)
    && (LastCheck(log).Some? ==> next < LastCheck(log).value.0 + PERIOD * (1 + LastCheck(log).value.1 + extra))
    && (LastCheck(log).None? ==> Checks(log) == 0)
  }

  lemma TimerStep(start: Instant, log: seq<Entry>, e: Entry, next: Instant)
    requires TimerMid(start, log, e.change, next) && (e.check.Some? ==> e.check.value > next)
    ensures TimerOk(start, log + [e], next + (if e.check.Some? then PERIOD else 0))
    ensures e.check.Some? ==> PERIOD * (Changes(log + [e]) + Checks(log + [e])) < e.check.value - start
  {
  }

  lemma RestKeepsInv(start: Instant, s: State, t: Turn, status: NetStatus, change: Option<Change>,
                     parse: Str -> Option<Key>)
    requires !s.dead && NetOk(s.net) && status in {StillOnline, ChangedToPrev, ChangedToNew}
    requires forall i :: 0 <= i < |s.log| ==> EntryOk(start, s.log[..i], s.log[i])
    requires TimerMid(start, s.log, change, s.next)
    requires var c := if change.Some? then change else LastChange(s.log);
             s.port == AnnouncedPort(c) && s.listen == ListenPort(c)
    requires Relayed(s.net) <==> change.Some? && change.value.kind == Some(Hard)
    requires s.net.current.Some? ==> s.net.current.value.SameAs(t.info)
    ensures Inv(start, Rest(s, t, status, change, parse))
  {
    var e := RestWrites(s, t, status, change, parse);
    TimerStep(start, s.log, e, s.next);
    LogExtends(s.log, e);
    EntriesExtend(start, s.log, e);
  }

  // What a completed change of network does.
  lemma ChangeTakesPort(start: Instant, s: State, t: Turn, traverse: bool)
    requires TimerOk(start, s.log, s.next) && OnChange(s, t, traverse).1.Some? && !Relayed(s.net)
    ensures var (s', change) := OnChange(s, t, traverse);
            && s'.log == s.log && s'.dead == s.dead && TimerMid(start, s.log, change, s'.next)
            && s'.port == AnnouncedPort(change) && s'.listen == ListenPort(change)
            && (s.net.current.Some? ==> (Relayed(s'.net) <==> change.value.kind == Some(Hard)))
            && s'.net.lastOnline == s.net.lastOnline && (NetOk(s.net) ==> NetOk(s'.net))
            && (s.net.current.Some? && s.net.current.value.SameAs(t.info) ==>
                  s'.net.current.Some? && s'.net.current.value.SameAs(t.info))
            && change.value == Change(t.newPort, if traverse then t.detection else None)
  {
  }

  lemma QuietKeepsInv(start: Instant, s: State, s': State, e: Entry)
    requires Inv(start, s) && !s.dead && NetOk(s'.net)
    requires e.change.None? && e.check.None? && e.announced == []
    requires s'.log == s.log + [e]
    requires !s'.dead ==> s'.next == s.next && s'.port == s.port && s'.listen == s.listen
    ensures Inv(start, s')
  {
    LogExtends(s.log, e);
    EntriesExtend(start, s.log, e);
  }

  lemma CheckKeepsNet(m: Slots, n: NetInfo)
    requires NetOk(m) && !n.hardNat
    ensures var (m', status) := Check(m, n);
            && NetOk(m')
            && m'.current.Some? && m'.current.value.SameAs(n)
            && (status in {StillOnline, ChangedToPrev, ChangedToNew} ==> !Relayed(m'))
            && (status in {StillOnline, ChangedToPrev, ChangedToNew} ==> m'.lastOnline == Some(n))
            && (status in {StillOnline, ChangedToPrev, Offline, HardNat} ==> m'.lastOnline == m.lastOnline)
  {
  }

  // What a turn leaves behind.
  lemma TurnWrites(start: Instant, s: State, t: Turn, traverse: bool, parse: Str -> Option<Key>) returns (e: Entry)
    requires Inv(start, s) && !s.dead && ValidTurn(t)
    ensures var s' := Iterate(s, t, traverse, parse);
            && s'.log == s.log + [e] && s'.net.lastOnline == Check(s.net, t.info).0.lastOnline
            && (e.change.None? && !s'.dead ==> s'.port == s.port && s'.listen == s.listen)
            && (e.change.Some? ==> s'.port == AnnouncedPort(e.change) && s'.listen == ListenPort(e.change))
            && (forall a :: a in e.announced ==> a.port == s'.port && a.listen == s'.listen)
            && (e.change.None? && e.announced != [] ==> s'.port == s.port && s'.listen == s.listen)
    ensures e.info == t.info && e.status == Check(s.net, t.info).1
    ensures e.change.Some? ==>
              e.status == ChangedToNew && e.change.value == Change(t.newPort, if traverse then t.detection else None)
    ensures e.change.Some? <==>
              e.status == ChangedToNew && (traverse ==> t.detection.Some?) && t.portSet && t.all.Some?
    ensures e.announced != [] ==> e.status in {StillOnline, ChangedToPrev, ChangedToNew}
    ensures e.announced != [] && e.status == ChangedToNew ==> e.change.Some?
    ensures forall a :: a in e.announced ==> (a.needsRelay <==> e.change.Some? && e.change.value.kind == Some(Hard))
  {
    var (net, status) := Check(s.net, t.info);
    CheckKeepsNet(s.net, t.info);
    var s1 := s.(net := net);
    match status {
      case Offline => e := Entry(t.info, status, None, None, []);
      case HardNat => e := Entry(t.info, status, None, None, []);
      case ChangedToNew =>
        var (s2, change) := OnChange(s1, t, traverse);
        if change.None? {
          e := Entry(t.info, status, None, None, []);
        } else {
          ChangeTakesPort(start, s1, t, traverse);
          e := RestWrites(s2, t, status, change, parse);
        }
      case _ => e := RestWrites(s1, t, status, None, parse);
    }
  }

  lemma IterateKeepsInv(start: Instant, s: State, t: Turn, traverse: bool, parse: Str -> Option<Key>)
    requires Inv(start, s) && !s.dead && ValidTurn(t)
    ensures Inv(start, Iterate(s, t, traverse, parse))
  {
    var (net, status) := Check(s.net, t.info);
    CheckKeepsNet(s.net, t.info);
    var s1 := s.(net := net);
    match status
    case Offline => QuietKeepsInv(start, s, Iterate(s, t, traverse, parse), Entry(t.info, status, None, None, []));
    case HardNat => QuietKeepsInv(start, s, Iterate(s, t, traverse, parse), Entry(t.info, status, None, None, []));
    case ChangedToNew =>
      var (s2, change) := OnChange(s1, t, traverse);
      if change.None? {
        QuietKeepsInv(start, s, Iterate(s, t, traverse, parse), Entry(t.info, status, None, None, []));
      } else {
        ChangeTakesPort(start, s1, t, traverse);
        RestKeepsInv(start, s2, t, status, change, parse);
      }
    case _ => RestKeepsInv(start, s1, t, status, None, parse);
  }

  lemma {:induction false} RunsKeepInv(w: Wg, start: Instant, turns: seq<Turn>, traverse: bool,
                                       parse: Str -> Option<Key>)
    requires forall t :: t in turns ==> ValidTurn(t)
    ensures Inv(start, Run(Start(w, start), turns, traverse, parse))
  {
    if turns != [] {
      var n := |turns| - 1;
      assert turns[n] in turns && forall t :: t in turns[..n] ==> t in turns;
      RunsKeepInv(w, start, turns[..n], traverse, parse);
      var s := Run(Start(w, start), turns[..n], traverse, parse);
      if !s.dead {
        IterateKeepsInv(start, s, turns[n], traverse, parse);
      }
    }
  }

  // ---------- The timer ----------

  // At a loop head the next check is due 25 seconds after the start for the check itself and for
  // each network change and check so far. So checks and changes together never outrun the clock,
  // and the next check is never far: less than 25 seconds after the last one, and 25 more for
  // each change since.
  ghost predicate TimerBounded(start: Instant, s: State) {
    && (!s.dead ==> s.next == start + 25_000_000_000 * (1 + Changes(s.log) + Checks(s.log)))
    && (!s.dead ==> match LastCheck(s.log)
                    case None => s.next == start + 25_000_000_000 * (1 + Changes(s.log))
                    case Some((t, n)) => s.next < t + 25_000_000_000 * (1 + n))
    && (forall i :: 0 <= i < |s.log| ==> CheckInTime(start, s.log, i))
  }

  // If entry i made a check, the changes and checks up to it fit in the time passed.
  ghost predicate CheckInTime(start: Instant, log: seq<Entry>, i: nat)
    requires i < |log|
  {
    log[i].check.Some? ==>
      25_000_000_000 * (Changes(log[..i + 1]) + Checks(log[..i + 1])) < log[i].check.value - start
  }

  lemma EntryInTime(start: Instant, log: seq<Entry>, i: nat)
    requires i < |log| && EntryOk(start, log[..i], log[i])
    ensures CheckInTime(start, log, i)
  {
    assert log[..i] + [log[i]] == log[..i + 1];
  }

  lemma InvBoundsTimer(start: Instant, s: State)
    requires Inv(start, s)
    ensures TimerBounded(start, s)
  {
    forall i | 0 <= i < |s.log| ensures CheckInTime(start, s.log, i) {
      EntryInTime(start, s.log, i);
    }
  }

  // The timer is bounded at every loop head of every run.
  lemma TimerBound(w: Wg, start: Instant, turns: seq<Turn>, traverse: bool, parse: Str -> Option<Key>)
    requires forall t :: t in turns ==> ValidTurn(t)
    ensures TimerBounded(start, Run(Start(w, start), turns, traverse, parse))
  {
    RunsKeepInv(w, start, turns, traverse, parse);
    InvBoundsTimer(start, Run(Start(w, start), turns, traverse, parse));
  }

  // ---------- The ports ----------

  // Announcement a of entry i carries the port that goes with the device's listen port: both come from
  // the last completed change of network, and the port is 0 only before the first one. It asks for a
  // relay only in the very turn in which a hard NAT was detected. Its addresses are those of the network
  // that the turn saw.
  ghost predicate MatchesDevice(log: seq<Entry>, i: nat, a: Announce)
    requires i < |log|
  {
    && a.port == AnnouncedPort(LastChange(log[..i + 1]))
    && a.listen == ListenPort(LastChange(log[..i + 1]))
    && (a.listen.None? ==> a.port == 0 && Changes(log[..i + 1]) == 0)
    && (a.needsRelay <==> log[i].change.Some? && log[i].change.value.kind == Some(Hard))
    && (a.needsRelay ==> a.listen == Some(a.port))
    && a.network.wanIpv4 == log[i].info.wanIpv4 && a.network.wanIpv6 == log[i].info.wanIpv6
    && a.network.lanAddrs == log[i].info.lanAddrs
  }

  lemma EntryMatchesDevice(start: Instant, log: seq<Entry>, i: nat, a: Announce)
    requires i < |log| && EntryOk(start, log[..i], log[i]) && a in log[i].announced
    ensures MatchesDevice(log, i, a)
  {
    assert log[..i] + [log[i]] == log[..i + 1];
    NoChangeNoPort(log[..i + 1]);
  }

  lemma InvMatchesDevice(start: Instant, s: State, i: nat, a: Announce)
    requires Inv(start, s) && i < |s.log| && a in s.log[i].announced
    ensures MatchesDevice(s.log, i, a)
  {
    EntryMatchesDevice(start, s.log, i, a);
  }

  // So does every announcement of every run.
  lemma AnnouncementsMatchDevice(w: Wg, start: Instant, turns: seq<Turn>, traverse: bool, parse: Str -> Option<Key>,
                                 i: nat, a: Announce)
    requires forall t :: t in turns ==> ValidTurn(t)
    requires i < |Run(Start(w, start), turns, traverse, parse).log|
    requires a in Run(Start(w, start), turns, traverse, parse).log[i].announced
    ensures MatchesDevice(Run(Start(w, start), turns, traverse, parse).log, i, a)
  {
    RunsKeepInv(w, start, turns, traverse, parse);
    InvMatchesDevice(start, Run(Start(w, start), turns, traverse, parse), i, a);
  }

  lemma {:induction false} NoChangeNoPort(log: seq<Entry>)
    ensures LastChange(log).None? <==> Changes(log) == 0
  {
    if log != [] {
      NoChangeNoPort(log[..|log| - 1]);
    }
  }

  // ---------- Endpoint-independent NATs ----------

  type Mapping = uint16 -> uint16

  // The turn's detection is made through the NAT of the network at hand, which maps ports alike
  // towards both servers.
  ghost predicate Honest(t: Turn, natOf: NetInfo -> Mapping) {
    var mapped := natOf(t.info)(t.newPort);
    Probed(t.newPort, mapped, mapped, t.detection)
  }

  // In a log where the last change was completed, the port in use is the image of the listen port.
  ghost predicate Mapped(s: State, natOf: NetInfo -> Mapping) {
    && (!s.dead && Completed(s.log) ==>
          s.listen.Some? && s.net.lastOnline.Some? && s.port == natOf(s.net.lastOnline.value)(s.listen.value))
    && (forall i, a :: 0 <= i < |s.log| && a in s.log[i].announced && Completed(s.log[..i + 1]) ==>
          !a.needsRelay && a.listen.Some? && a.port == natOf(s.log[i].info)(a.listen.value))
  }

  // The state after a turn, as far as ports go.
  lemma PortsStayMapped(start: Instant, s: State, t: Turn, parse: Str -> Option<Key>, natOf: NetInfo -> Mapping,
                        e: Entry)
    requires Inv(start, s) && !s.dead && ValidTurn(t) && Honest(t, natOf) && Mapped(s, natOf)
    requires var s' := Iterate(s, t, true, parse);
             && s'.log == s.log + [e] && s'.net.lastOnline == Check(s.net, t.info).0.lastOnline
             && (e.change.None? && !s'.dead ==> s'.port == s.port && s'.listen == s.listen)
             && (e.change.None? && e.announced != [] ==> s'.port == s.port && s'.listen == s.listen)
             && (e.change.Some? ==> s'.port == AnnouncedPort(e.change) && s'.listen == ListenPort(e.change))
    requires e.info == t.info && e.status == Check(s.net, t.info).1
    requires e.change.Some? ==> e.status == ChangedToNew && e.change.value == Change(t.newPort, t.detection)
    requires e.change.Some? ==> t.detection.Some?
    requires e.announced != [] ==> e.status in {StillOnline, ChangedToPrev, ChangedToNew}
    requires e.announced != [] && e.status == ChangedToNew ==> e.change.Some?
    ensures var s' := Iterate(s, t, true, parse);
            (!s'.dead || e.announced != []) && Completed(s.log + [e]) ==>
              && s'.listen.Some? && s'.net.lastOnline.Some?
              && s'.port == natOf(s'.net.lastOnline.value)(s'.listen.value)
    ensures e.announced != [] ==> Check(s.net, t.info).0.lastOnline == Some(t.info)
    ensures e.change.Some? ==> e.change.value.kind != Some(Hard)
  {
    CheckKeepsNet(s.net, t.info);
    LogExtends(s.log, e);
    var mapped := natOf(t.info)(t.newPort);
    ProbedMatchesMapping(t.newPort, mapped, mapped, t.detection);
    if e.status == ChangedToNew {
      assert Check(s.net, t.info).0.lastOnline == Some(t.info);
    }
  }

  lemma IterateKeepsMapped(start: Instant, s: State, t: Turn, parse: Str -> Option<Key>, natOf: NetInfo -> Mapping)
    requires Inv(start, s) && !s.dead && ValidTurn(t) && Honest(t, natOf) && Mapped(s, natOf)
    ensures Mapped(Iterate(s, t, true, parse), natOf)
  {
    var s' := Iterate(s, t, true, parse);
    var e := TurnWrites(start, s, t, true, parse);
    PortsStayMapped(start, s, t, parse, natOf, e);
    MappedExtends(s, s', e, natOf);
  }

  lemma MappedExtends(s: State, s': State, e: Entry, natOf: NetInfo -> Mapping)
    requires Mapped(s, natOf) && s'.log == s.log + [e]
    requires (!s'.dead || e.announced != []) && Completed(s.log + [e]) ==>
               s'.listen.Some? && s'.net.lastOnline.Some? && s'.port == natOf(s'.net.lastOnline.value)(s'.listen.value)
    requires e.announced != [] ==> s'.net.lastOnline == Some(e.info)
    requires forall a :: a in e.announced ==> a.port == s'.port && a.listen == s'.listen
    requires forall a :: a in e.announced ==> (a.needsRelay ==> e.change.Some? && e.change.value.kind == Some(Hard))
    requires e.change.Some? ==> e.change.value.kind != Some(Hard)
    ensures Mapped(s', natOf)
  {
    forall i, a | 0 <= i < |s'.log| && a in s'.log[i].announced && Completed(s'.log[..i + 1])
      ensures !a.needsRelay && a.listen.Some? && a.port == natOf(s'.log[i].info)(a.listen.value)
    {
      if i < |s.log| {
        assert s'.log[..i + 1] == s.log[..i + 1];
        assert a in s.log[i].announced;
      } else {
        assert s'.log[..i + 1] == s'.log;
      }
    }
  }

  lemma {:induction false} RunsStayMapped(w: Wg, start: Instant, turns: seq<Turn>, parse: Str -> Option<Key>,
                                          natOf: NetInfo -> Mapping)
    requires forall t :: t in turns ==> ValidTurn(t) && Honest(t, natOf)
    ensures Mapped(Run(Start(w, start), turns, true, parse), natOf)
  {
    if turns != [] {
      var n := |turns| - 1;
      assert turns[n] in turns && forall t :: t in turns[..n] ==> t in turns;
      RunsStayMapped(w, start, turns[..n], parse, natOf);
      RunsKeepInv(w, start, turns[..n], true, parse);
      var s := Run(Start(w, start), turns[..n], true, parse);
      if !s.dead {
        IterateKeepsMapped(start, s, turns[n], parse, natOf);
      }
    }
  }

  // When each network's NAT maps ports alike towards everyone, every announcement made while the
  // last change of network was completed carries the port that the NAT of the network at hand
  // maps the device's listen port to, and asks for no relay.
  lemma AnnouncedPortMatchesNat(w: Wg, start: Instant, turns: seq<Turn>, parse: Str -> Option<Key>,
                                natOf: NetInfo -> Mapping,
                                i: nat, a: Announce)
    requires forall t :: t in turns ==> ValidTurn(t) && Honest(t, natOf)
    requires i < |Run(Start(w, start), turns, true, parse).log|
    requires a in Run(Start(w, start), turns, true, parse).log[i].announced
    requires Completed(Run(Start(w, start), turns, true, parse).log[..i + 1])
    ensures var log := Run(Start(w, start), turns, true, parse).log;
            !a.needsRelay && a.listen.Some? && a.port == natOf(log[i].info)(a.listen.value)
  {
    RunsStayMapped(w, start, turns, parse, natOf);
  }

}
