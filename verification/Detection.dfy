// When the client's loop detects the NAT, and what becomes of a detection that fails.
module Detection {
  import opened Wrappers
  import opened Protocol
  import opened Wire
  import Postcard
  import opened Nat
  import opened NetStat
  import WgInterface
  import opened Daemon
  import opened DaemonRuns
  import opened Text

  type Parser = Str -> Option<WgInterface.Key>

  // ---------- The run as a history of the network monitor ----------

  // What the turns do to the network monitor: one observation each, and a mark when a new network
  // turns out to have a hard NAT.
  function OpsOf(turns: seq<Turn>, traverse: bool): seq<Op> {
    if turns == [] then []
    else
      var past, t := OpsOf(turns[..|turns| - 1], traverse), turns[|turns| - 1];
      past + [Observe(t.info)]
      + (if MarksHard(After(past), t, traverse) then [Mark(true)] else [])
  }

  predicate MarksHard(m: Slots, t: Turn, traverse: bool) {
    Check(m, t.info).1 == ChangedToNew && traverse && t.detection == Some(Hard)
  }

  lemma AfterExtends(ops: seq<Op>, o: Op)
    ensures After(ops + [o]) == if o.Observe? then Check(After(ops), o.info).0 else SetHard(After(ops), o.hard)
  {
    assert (ops + [o])[..|ops|] == ops;
  }

  lemma IterateNet(s: State, t: Turn, traverse: bool, parse: Parser)
    ensures var m, s' := Check(s.net, t.info).0, Iterate(s, t, traverse, parse);
            s'.net == (if MarksHard(s.net, t, traverse) then SetHard(m, true) else m) && |s'.log| == |s.log| + 1
  {
  }

  lemma OpsExtend(past: seq<Turn>, t: Turn, traverse: bool)
    ensures var ops := OpsOf(past, traverse);
            && OpsOf(past + [t], traverse)
               == (if MarksHard(After(ops), t, traverse) then ops + [Observe(t.info)] + [Mark(true)]
                   else ops + [Observe(t.info)])
            && var m := Check(After(ops), t.info).0;
               After(OpsOf(past + [t], traverse)) == if MarksHard(After(ops), t, traverse) then SetHard(m, true) else m
  {
    assert (past + [t])[..|past|] == past;
    var ops := OpsOf(past, traverse);
    AfterExtends(ops, Observe(t.info));
    AfterExtends(ops + [Observe(t.info)], Mark(true));
    assert ops + [Observe(t.info)] + [] == ops + [Observe(t.info)];
  }

  // The monitor is what the turns so far make of it.
  ghost predicate IsHistoryOf(s: State, past: seq<Turn>, traverse: bool) {
    s.net == After(OpsOf(past, traverse)) && Detected(OpsOf(past, traverse)) && |s.log| == |past|
  }

  // A turn of a live daemon keeps that.
  ghost predicate Advances(s: State, past: seq<Turn>, t: Turn, s': State, traverse: bool) {
    !s.dead && IsHistoryOf(s, past, traverse) ==> IsHistoryOf(s', past + [t], traverse)
  }

  lemma TurnAdvances(s: State, past: seq<Turn>, t: Turn, s': State, traverse: bool, parse: Parser)
    requires Takes(s, t, s', traverse, parse) && !t.info.hardNat
    ensures Advances(s, past, t, s', traverse)
  {
    OpsExtend(past, t, traverse);
    IterateNet(s, t, traverse, parse);
  }

  lemma AllAdvance(states: seq<State>, turns: seq<Turn>, traverse: bool, parse: Parser)
    requires IsTrace(states, turns, traverse, parse) && forall t :: t in turns ==> ValidTurn(t)
    ensures forall m :: 0 <= m < |turns| ==> Advances(states[m], turns[..m], turns[m], states[m + 1], traverse)
  {
    forall m | 0 <= m < |turns| ensures Advances(states[m], turns[..m], turns[m], states[m + 1], traverse) {
      assert turns[m] in turns;
      TurnAdvances(states[m], turns[..m], turns[m], states[m + 1], traverse, parse);
    }
  }

  lemma {:induction false} TraceIsHistory(states: seq<State>, turns: seq<Turn>, traverse: bool, n: nat)
    requires |states| == |turns| + 1 && n <= |turns| && IsHistoryOf(states[0], [], traverse)
    requires forall m :: 0 <= m < |turns| ==> Advances(states[m], turns[..m], turns[m], states[m + 1], traverse)
    requires forall m :: 0 <= m < n ==> !states[m].dead
    ensures IsHistoryOf(states[n], turns[..n], traverse)
  {
    if n > 0 {
      TraceIsHistory(states, turns, traverse, n - 1);
      assert Advances(states[n - 1], turns[..n - 1], turns[n - 1], states[n - 1 + 1], traverse);
      assert turns[..n] == turns[..n - 1] + [turns[n - 1]];
    }
  }

  lemma LiveTraceIsHistory(states: seq<State>, turns: seq<Turn>, traverse: bool, parse: Parser)
    requires IsTrace(states, turns, traverse, parse) && (forall t :: t in turns ==> ValidTurn(t))
    requires states[0].net == EMPTY && states[0].log == []
    requires turns != [] ==> !states[|turns| - 1].dead
    ensures IsHistoryOf(states[|turns|], turns, traverse)
  {
    AllAdvance(states, turns, traverse, parse);
    forall m | 0 <= m < |turns| ensures !states[m].dead {
      Daemon.AliveBefore(states, turns, traverse, parse, m, |turns| - 1);
    }
    TraceIsHistory(states, turns, traverse, |turns|);
    assert turns[..|turns|] == turns;
  }

  // The loop's monitor is at every loop head what the history lemmas speak of.
  lemma RunIsHistory(w: WgInterface.Wg, start: Instant, turns: seq<Turn>, traverse: bool, parse: Parser)
    requires turns != [] ==> !Run(Start(w, start), turns[..|turns| - 1], traverse, parse).dead
    requires forall t :: t in turns ==> ValidTurn(t)
    ensures IsHistoryOf(Run(Start(w, start), turns, traverse, parse), turns, traverse)
  {
    var states := RunHasTrace(Start(w, start), turns, traverse, parse);
    LiveTraceIsHistory(states, turns, traverse, parse);
  }

  // k is the last turn of an online network.
  ghost predicate LastOnlineTurn(turns: seq<Turn>, k: int) {
    && 0 <= k < |turns| && turns[k].info.Online()
    && forall m :: k < m < |turns| ==> !turns[m].info.Online()
  }

  // n is the network that was last seen online.
  ghost predicate WasLastOnline(turns: seq<Turn>, n: NetInfo) {
    exists k :: LastOnlineTurn(turns, k) && turns[k].info == n
  }

  lemma LastOnlineExtends(past: seq<Turn>, t: Turn, n: NetInfo)
    ensures WasLastOnline(past + [t], n) <==> if t.info.Online() then t.info == n else WasLastOnline(past, n)
  {
    var turns := past + [t];
    assert turns[|past|] == t;
    if t.info.Online() {
      assert LastOnlineTurn(turns, |past|);
    } else {
      assert forall k :: 0 <= k < |past| ==> turns[k] == past[k];
      forall k ensures LastOnlineTurn(turns, k) <==> LastOnlineTurn(past, k) {}
    }
  }

  ghost predicate OpsLastOnline(ops: seq<Op>, n: NetInfo) {
    exists i :: IsLastOnline(ops, i) && ops[i].info == n
  }

  lemma OpsLastOnlineExtends(ops: seq<Op>, o: Op, n: NetInfo)
    ensures OpsLastOnline(ops + [o], n) <==>
            if o.Observe? && o.info.Online() then o.info == n else OpsLastOnline(ops, n)
    ensures Seen(ops + [o]) <==> o.Observe? || Seen(ops)
  {
    var q := ops + [o];
    PastCarries(ops, o);
    assert q[|ops|] == o && forall i :: 0 <= i < |ops| ==> q[i] == ops[i];
    if o.Observe? && o.info.Online() {
      assert IsLastOnline(q, |ops|);
    }
    if o.Observe? {
      assert IsLastSeen(q, |ops|);
    }
  }

  lemma {:induction false} OpsShowTurns(turns: seq<Turn>, traverse: bool, n: NetInfo)
    ensures OpsLastOnline(OpsOf(turns, traverse), n) <==> WasLastOnline(turns, n)
    ensures Seen(OpsOf(turns, traverse)) <==> turns != []
  {
    if turns != [] {
      var past, t := turns[..|turns| - 1], turns[|turns| - 1];
      OpsShowTurns(past, traverse, n);
      var ops := OpsOf(past, traverse);
      var seen := ops + [Observe(t.info)];
      assert turns == past + [t];
      LastOnlineExtends(past, t, n);
      OpsLastOnlineExtends(ops, Observe(t.info), n);
      OpsLastOnlineExtends(seen, Mark(true), n);
      OpsExtend(past, t, traverse);
    }
  }

  // ---------- When a detection is made ----------

  // A turn finds a new network, and so detects its NAT, exactly when it is the first one, or is
  // online on another network than the one last seen online. It takes a port into use exactly when
  // moreover the detection succeeds and the device takes the port and shows its peers. No other
  // turn does.
  lemma DetectionTurns(w: WgInterface.Wg, start: Instant, turns: seq<Turn>, traverse: bool, parse: Parser, i: nat)
    requires i < |turns| && (forall t :: t in turns ==> ValidTurn(t))
    requires !Run(Start(w, start), turns[..i], traverse, parse).dead
    ensures var log := Run(Start(w, start), turns[..i + 1], traverse, parse).log;
            var t := turns[i];
            && |log| == i + 1
            && (log[i].status == ChangedToNew <==> i == 0 || (t.info.Online() && !WasLastOnline(turns[..i], t.info)))
            && (log[i].change.Some? <==>
                log[i].status == ChangedToNew && (traverse ==> t.detection.Some?) && t.portSet && t.all.Some?)
  {
    LiveBefore(w, start, turns, traverse, parse, i);
    RunIsHistory(w, start, turns[..i], traverse, parse);
    RunsKeepInv(w, start, turns[..i], traverse, parse);
    RunStep(Start(w, start), turns, i, traverse, parse);
    var s := Run(Start(w, start), turns[..i], traverse, parse);
    var e := TurnWrites(start, s, turns[i], traverse, parse);
    StatusInTurns(turns[..i], turns[i], traverse, s.net);
  }

  lemma LiveBefore(w: WgInterface.Wg, start: Instant, turns: seq<Turn>, traverse: bool, parse: Parser, i: nat)
    requires i <= |turns| && !Run(Start(w, start), turns[..i], traverse, parse).dead
    ensures i > 0 ==> turns[..i][..i - 1] == turns[..i - 1]
    ensures i > 0 ==> !Run(Start(w, start), turns[..i - 1], traverse, parse).dead
  {
    if i > 0 {
      assert turns[..i][..i - 1] == turns[..i - 1];
    }
  }

  // The status of the next turn, in terms of the turns before it.
  lemma StatusInTurns(past: seq<Turn>, t: Turn, traverse: bool, m: Slots)
    requires m == After(OpsOf(past, traverse)) && Detected(OpsOf(past, traverse)) && !t.info.hardNat
    ensures Check(m, t.info).1 == ChangedToNew <==> past == [] || (t.info.Online() && !WasLastOnline(past, t.info))
  {
    OpsShowTurns(past, traverse, t.info);
    StatusTellsHistory(OpsOf(past, traverse), t.info);
  }

  // ---------- A detection that fails ----------

  // A turn that does not get as far as a new port leaves the ports alone.
  lemma NoChangeKeepsPorts(s: State, t: Turn, parse: Parser)
    requires !s.dead && (Check(s.net, t.info).1 == ChangedToNew ==> t.detection.None?)
    ensures var s' := Iterate(s, t, true, parse);
            s'.port == s.port && s'.listen == s.listen && Changes(s'.log) == Changes(s.log)
  {
    var status := Check(s.net, t.info).1;
    var s1 := s.(net := Check(s.net, t.info).0);
    if status in {StillOnline, ChangedToPrev} {
      var e := RestWrites(s1, t, status, None, parse);
      LogExtends(s.log, e);
    } else {
      LogExtends(s.log, Entry(t.info, status, None, None, []));
    }
  }

  // last is the network that was last online, and s has the ports that s0 had.
  ghost predicate Sticks(s0: State, s: State, last: NetInfo) {
    && s.port == s0.port && s.listen == s0.listen && Changes(s.log) == Changes(s0.log)
    && (!s.dead ==> NetOk(s.net) && s.net.lastOnline == Some(last))
  }

  lemma StickingTurn(s0: State, s: State, t: Turn, parse: Parser, last: NetInfo)
    requires !s.dead && NetOk(s.net) && last.Online() && !last.hardNat && ValidTurn(t)
    requires s.port == s0.port && s.listen == s0.listen && Changes(s.log) == Changes(s0.log)
    requires (t.info == last && t.detection.None?)
        || (s.net.lastOnline == Some(last) && (!t.info.Online() || t.info == last))
    ensures Sticks(s0, Iterate(s, t, true, parse), last)
  {
    if s.net.lastOnline == Some(last) {
      ReturnIsNotNew(s.net, t.info, last);
    } else {
      OnlineIsRemembered(s.net, last);
    }
    CheckKeepsNet(s.net, t.info);
    NoChangeKeepsPorts(s, t, parse);
    IterateNet(s, t, true, parse);
  }

  lemma {:induction false} StickingRun(s0: State, s: State, turns: seq<Turn>, parse: Parser, last: NetInfo)
    requires Sticks(s0, s, last) && last.Online() && !last.hardNat
    requires forall t :: t in turns ==> ValidTurn(t) && (!t.info.Online() || t.info == last)
    ensures Sticks(s0, Run(s, turns, true, parse), last)
  {
    if turns != [] {
      var past, t := turns[..|turns| - 1], turns[|turns| - 1];
      assert t in turns && forall x :: x in past ==> x in turns;
      StickingRun(s0, s, past, parse, last);
      var s1 := Run(s, past, true, parse);
      if !s1.dead {
        StickingTurn(s0, s1, t, parse, last);
      }
    }
  }

  lemma {:induction false} RunSplits(s: State, turns: seq<Turn>, i: nat, traverse: bool, parse: Parser)
    requires i <= |turns|
    ensures Run(s, turns, traverse, parse) == Run(Run(s, turns[..i], traverse, parse), turns[i..], traverse, parse)
  {
    if i < |turns| {
      var past := turns[..|turns| - 1];
      assert past[..i] == turns[..i] && past[i..] == turns[i..][..|turns[i..]| - 1];
      RunSplits(s, past, i, traverse, parse);
    } else {
      assert turns[..i] == turns && turns[i..] == [];
    }
  }

  // From turn i on, the client was only on the network of that turn, or offline.
  predicate StaysOn(turns: seq<Turn>, i: nat) {
    i < |turns| && forall m :: i < m < |turns| ==> !turns[m].info.Online() || turns[m].info == turns[i].info
  }

  // No turn repeats a detection: when one fails on an online network, the ports stay what they
  // were for as long as the client is on that network or offline, however often it returns.
  lemma FailedDetectionSticks(w: WgInterface.Wg, start: Instant, turns: seq<Turn>, parse: Parser, i: nat)
    requires (forall t :: t in turns ==> ValidTurn(t)) && StaysOn(turns, i)
    requires turns[i].info.Online() && turns[i].detection.None?
    requires !Run(Start(w, start), turns[..i], true, parse).dead
    ensures Sticks(Run(Start(w, start), turns[..i], true, parse), Run(Start(w, start), turns, true, parse),
        turns[i].info)
  {
    var s := Run(Start(w, start), turns[..i], true, parse);
    assert turns[i] in turns && forall x :: x in turns[..i] ==> x in turns;
    RunsKeepInv(w, start, turns[..i], true, parse);
    StickingTurn(s, s, turns[i], parse, turns[i].info);
    RunStep(Start(w, start), turns, i, true, parse);
    StickingRun(s, Iterate(s, turns[i], true, parse), turns[i + 1..], parse, turns[i].info);
    RunSplits(Start(w, start), turns, i + 1, true, parse);
  }

  lemma ReturnIsNotNew(m: Slots, n: NetInfo, last: NetInfo)
    requires NetOk(m) && m.lastOnline == Some(last) && last.Online() && (!n.Online() || n == last)
    ensures Check(m, n).1 != ChangedToNew && Check(m, n).0.lastOnline == Some(last)
  {
  }

  lemma OnlineIsRemembered(m: Slots, n: NetInfo)
    requires NetOk(m) && n.Online() && !n.hardNat
    ensures Check(m, n).0.lastOnline == Some(n)
  {
  }

  // No port was ever taken into use, and nothing but port 0 announced.
  ghost predicate Portless(s: State) {
    && s.port == 0 && s.listen == None && Changes(s.log) == 0
    && forall e, a :: e in s.log && a in e.announced ==> a.port == 0
  }

  lemma {:induction false} NoPortBefore(log: seq<Entry>, i: nat)
    requires i <= |log| && Changes(log) == 0
    ensures LastChange(log[..i]) == None
  {
    if i < |log| {
      var past := log[..|log| - 1];
      assert past[..i] == log[..i];
      NoPortBefore(past, i);
    } else {
      assert log[..i] == log;
      NoChangeNoPort(log);
    }
  }

  // In particular, when the very first detection fails, the client announces port 0 for as long as
  // it sees no other network.
  lemma FirstFailureSticks(w: WgInterface.Wg, start: Instant, turns: seq<Turn>, parse: Parser)
    requires (forall t :: t in turns ==> ValidTurn(t)) && StaysOn(turns, 0)
    requires turns[0].info.Online() && turns[0].detection.None?
    ensures Portless(Run(Start(w, start), turns, true, parse))
  {
    FailedDetectionSticks(w, start, turns, parse, 0);
    var log := Run(Start(w, start), turns, true, parse).log;
    forall e, a | e in log && a in e.announced ensures a.port == 0 {
      var i :| 0 <= i < |log| && log[i] == e;
      AnnouncementsMatchDevice(w, start, turns, true, parse, i, a);
      NoPortBefore(log, i + 1);
    }
  }

  // The server never takes such an announcement: it closes the connection without an answer.
  lemma PortZeroIsRefused(a: Announcement)
    requires a.wgPort == 0 && |Postcard.EncAnnouncement(a)| <= MAX_MESSAGE_SIZE
    ensures ParseRequest(RequestFrame(a)) == Invalid(a)
  {
    ServerReadsAnnouncement(a, []);
    assert RequestFrame(a) + [] == RequestFrame(a);
  }

}
