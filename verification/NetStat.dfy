// The client's view of its network: an unbounded history of observations kept in two slots.
module NetStat {
  import opened Wrappers
  import opened Net

  datatype NetInfo = NetInfo(
    wanIpv4: Option<Ipv4Addr>,
    wanIpv6: Option<Ipv6Addr>,
    lanAddrs: seq<IpNet>,
    hardNat: bool)
  {
    predicate Online() { wanIpv4.Some? || wanIpv6.Some? }

    // Equality of networks does not look at the mark.
    predicate SameAs(o: NetInfo) { wanIpv4 == o.wanIpv4 && wanIpv6 == o.wanIpv6 && lanAddrs == o.lanAddrs }
  }

  datatype NetStatus = ChangedToNew | ChangedToPrev | StillOnline | HardNat | Offline

  datatype Slots = Slots(current: Option<NetInfo>, lastOnline: Option<NetInfo>)

  const EMPTY := Slots(None, None)

  predicate SameSlot(a: NetInfo, b: Option<NetInfo>) { b.Some? && a.SameAs(b.value) }

  function Check(m: Slots, n: NetInfo): (Slots, NetStatus) {
    if m.current.None? then (Slots(Some(n), Some(n)), ChangedToNew)
    else if !n.Online() then (m.(current := Some(n)), Offline)
    else if n.SameAs(m.current.value) then (m, if m.current.value.hardNat then HardNat else StillOnline)
    else if !m.current.value.Online() && SameSlot(n, m.lastOnline) then
      (m.(current := Some(n)), if m.lastOnline.value.hardNat then HardNat else ChangedToPrev)
    else (Slots(Some(n), Some(n)), ChangedToNew)
  }

  function SetHard(m: Slots, b: bool): Slots {
    if m.current.None? then m else m.(current := Some(m.current.value.(hardNat := b)))
  }

  predicate Relayed(m: Slots) { m.current.Some? && m.current.value.hardNat }

  class NetworkMonitor {
    var current: Option<NetInfo>
    var lastOnline: Option<NetInfo>

    function Contents(): Slots
      reads this
    {
      Slots(current, lastOnline)
    }

    constructor ()
      ensures Contents() == EMPTY
    {
      current, lastOnline := None, None;
    }

    method SetHardNat(hardNat: bool)
      modifies this
      ensures Contents() == SetHard(old(Contents()), hardNat)
    {
      if current.Some? {
        current := Some(current.value.(hardNat := hardNat));
      }
    }

    // newInfo is what the detection sees, not marked.
    method CheckStatus(newInfo: NetInfo) returns (status: NetStatus)
      modifies this
      ensures (Contents(), status) == Check(old(Contents()), newInfo)
    {
      if current.None? {
        current, lastOnline := Some(newInfo), Some(newInfo);
        return ChangedToNew;
      }
      var was := current.value;
      if !newInfo.Online() {
        current := Some(newInfo);
        return Offline;
      }
      if newInfo.SameAs(was) {
        return if was.hardNat then HardNat else StillOnline;
      }
      if !was.Online() && lastOnline.Some? && newInfo.SameAs(lastOnline.value) {
        current := Some(newInfo);
        return if lastOnline.value.hardNat then HardNat else ChangedToPrev;
      }
      current, lastOnline := Some(newInfo), Some(newInfo);
      return ChangedToNew;
    }

    predicate NeedsRelay()
      reads this
    {
      current.Some? && current.value.hardNat
    }
  }

  // ---------- Histories ----------

  datatype Op = Observe(info: NetInfo) | Mark(hard: bool)

  // Detection never marks what it sees.
  ghost predicate Detected(ops: seq<Op>) {
    forall o :: o in ops && o.Observe? ==> !o.info.hardNat
  }

  function After(ops: seq<Op>): Slots {
    if ops == [] then EMPTY
    else
      var m := After(ops[..|ops| - 1]);
      match ops[|ops| - 1]
      case Observe(n) => Check(m, n).0
      case Mark(b) => SetHard(m, b)
  }

  // i is the last observation among ops.
  ghost predicate IsLastSeen(ops: seq<Op>, i: int) {
    && 0 <= i < |ops| && ops[i].Observe?
    && forall j :: i < j < |ops| ==> !ops[j].Observe?
  }

  // i is the last observation of an online network among ops.
  ghost predicate IsLastOnline(ops: seq<Op>, i: int) {
    && 0 <= i < |ops| && ops[i].Observe? && ops[i].info.Online()
    && forall j :: i < j < |ops| && ops[j].Observe? ==> !ops[j].info.Online()
  }

  // The network was marked at k, and since then nothing but the same online network was seen
  // and the mark was not taken back.
  ghost predicate MarkedAt(ops: seq<Op>, k: int) {
    && 0 <= k < |ops| && ops[k] == Mark(true)
    && forall j :: k < j < |ops| ==>
         match ops[j]
         case Mark(b) => b
         case Observe(n) => n.Online() && (exists i :: IsLastSeen(ops[..k], i) && n == ops[i].info)
  }

  ghost predicate Seen(ops: seq<Op>) { exists i :: IsLastSeen(ops, i) }

  // What the two slots hold, in terms of the whole history.
  ghost predicate SlotsTell(ops: seq<Op>, m: Slots) {
    && (m.current.Some? <==> Seen(ops))
    && (m.lastOnline.Some? <==> Seen(ops))
    && (forall i :: IsLastSeen(ops, i) ==> m.current.value.SameAs(ops[i].info))
    && (forall i :: IsLastOnline(ops, i) ==> m.lastOnline == Some(ops[i].info))
    && (m.lastOnline.Some? && m.lastOnline.value.Online() ==> exists i :: IsLastOnline(ops, i))
    && (m.lastOnline.Some? ==> !m.lastOnline.value.hardNat)
    && (m.current.Some? && m.current.value.Online() ==> m.current.value.SameAs(m.lastOnline.value))
    && (m.current.Some? && m.current.value.Online() ==>
          (m.current.value.hardNat <==> exists k :: MarkedAt(ops, k) && Seen(ops[..k])))
  }

  lemma {:induction false} SlotsTellHistory(ops: seq<Op>)
    requires Detected(ops)
    ensures SlotsTell(ops, After(ops))
  {
    if ops != [] {
      var n := |ops| - 1;
      var p := ops[..n];
      SlotsTellHistory(p);
      match ops[n] {
        case Mark(b) => MarkTells(p, b);
        case Observe(i) => ObserveTells(p, i);
      }
      assert ops == p + [ops[n]];
    }
  }

  // Facts about the past carry over when one operation is added.
  lemma PastCarries(p: seq<Op>, o: Op)
    ensures o.Mark? ==> forall i :: IsLastSeen(p + [o], i) <==> IsLastSeen(p, i)
    ensures o.Mark? ==> forall i :: IsLastOnline(p + [o], i) <==> IsLastOnline(p, i)
    ensures o.Observe? ==> forall i :: IsLastSeen(p + [o], i) <==> i == |p|
    ensures o.Observe? && o.info.Online() ==> forall i :: IsLastOnline(p + [o], i) <==> i == |p|
    ensures o.Observe? && !o.info.Online() ==> forall i :: IsLastOnline(p + [o], i) <==> IsLastOnline(p, i)
    ensures forall k :: 0 <= k <= |p| ==> (p + [o])[..k] == p[..k]
  {
    var q := p + [o];
    assert q[|p|] == o;
    assert forall j :: 0 <= j < |p| ==> q[j] == p[j];
    forall i
      ensures o.Mark? ==> (IsLastSeen(q, i) <==> IsLastSeen(p, i)) && (IsLastOnline(q, i) <==> IsLastOnline(p, i))
    {
    }
    forall i ensures o.Observe? ==> (IsLastSeen(q, i) <==> i == |p|) {}
    forall i ensures o.Observe? && o.info.Online() ==> (IsLastOnline(q, i) <==> i == |p|) {}
    forall i ensures o.Observe? && !o.info.Online() ==> (IsLastOnline(q, i) <==> IsLastOnline(p, i)) {}
  }

  lemma MarkTells(p: seq<Op>, b: bool)
    requires SlotsTell(p, After(p))
    ensures SlotsTell(p + [Mark(b)], SetHard(After(p), b))
  {
    var q := p + [Mark(b)];
    PastCarries(p, Mark(b));
    var m := After(p);
    assert Seen(q) <==> Seen(p);
    if m.current.Some? {
      if b {
        assert MarkedAt(q, |p|) && Seen(q[..|p|]) by { assert q[..|p|] == p; }
      } else {
        forall k | MarkedAt(q, k) ensures false { assert q[|p|] == Mark(false); }
      }
    }
  }

  lemma SameKeepsMark(p: seq<Op>, n: NetInfo, i: int)
    requires IsLastSeen(p, i) && n == p[i].info && n.Online()
    ensures (exists k :: MarkedAt(p, k) && Seen(p[..k]))
        <==> (exists k :: MarkedAt(p + [Observe(n)], k) && Seen((p + [Observe(n)])[..k]))
  {
    var q := p + [Observe(n)];
    PastCarries(p, Observe(n));
    forall k | MarkedAt(p, k) && Seen(p[..k]) ensures MarkedAt(q, k) && Seen(q[..k]) {
      assert q[..k] == p[..k];
      // the last observation before the mark was of the network seen last
      assert exists x :: IsLastSeen(p[..k], x) && n == p[x].info by {
        if k < i {
          assert p[i] == Observe(n);
        } else {
          assert IsLastSeen(p[..k], i);
        }
      }
      forall j | k < j < |q|
        ensures match q[j]
                case Mark(b) => b
                case Observe(y) => y.Online() && exists x :: IsLastSeen(q[..k], x) && y == q[x].info
      {
        if j < |p| { assert q[j] == p[j]; }
      }
    }
    forall k | MarkedAt(q, k) && Seen(q[..k]) ensures MarkedAt(p, k) && Seen(p[..k]) {
      assert q[..k] == p[..k];
      forall j | k < j < |p|
        ensures match p[j]
                case Mark(b) => b
                case Observe(y) => y.Online() && exists x :: IsLastSeen(p[..k], x) && y == p[x].info
      {
        assert q[j] == p[j];
      }
    }
  }

  lemma NewHasNoMark(p: seq<Op>, n: NetInfo)
    requires forall i :: IsLastSeen(p, i) ==> n != p[i].info || !n.Online()
    ensures !exists k :: MarkedAt(p + [Observe(n)], k) && Seen((p + [Observe(n)])[..k])
  {
    var q := p + [Observe(n)];
    PastCarries(p, Observe(n));
    forall k | MarkedAt(q, k) && Seen(q[..k]) ensures false {
      assert q[..k] == p[..k];
      assert q[|p|] == Observe(n);
      var x :| IsLastSeen(q[..k], x) && n == q[x].info;
      assert q[x] == p[x];
      forall j | k <= j < |p| && p[j].Observe? ensures p[j].info == n {
        assert q[j] == p[j];
        var y :| IsLastSeen(q[..k], y) && q[j].info == q[y].info;
        assert y == x;
      }
      LastSeenIs(p, k, x, n);
    }
  }

  // When everything seen since k is n, the network seen last is n.
  lemma LastSeenIs(p: seq<Op>, k: nat, x: int, n: NetInfo)
    requires k <= |p| && IsLastSeen(p[..k], x) && p[x].info == n
    requires forall j :: k <= j < |p| && p[j].Observe? ==> p[j].info == n
    ensures exists i :: IsLastSeen(p, i) && p[i].info == n
    decreases |p| - k
  {
    if k == |p| {
      assert p[..k] == p;
    } else if p[k].Observe? {
      assert IsLastSeen(p[..k + 1], k);
      LastSeenIs(p, k + 1, k, n);
    } else {
      assert IsLastSeen(p[..k + 1], x);
      LastSeenIs(p, k + 1, x, n);
    }
  }

  lemma ObserveTells(p: seq<Op>, n: NetInfo)
    requires SlotsTell(p, After(p)) && !n.hardNat && Detected(p)
    ensures SlotsTell(p + [Observe(n)], Check(After(p), n).0)
  {
    var q := p + [Observe(n)];
    PastCarries(p, Observe(n));
    var m := After(p);
    assert IsLastSeen(q, |p|);
    if m.current.Some? && n.Online() && n.SameAs(m.current.value) {
      var i :| IsLastSeen(p, i);
      assert p[i] in p;
      assert n == p[i].info;
      SameKeepsMark(p, n, i);
    } else if n.Online() {
      forall i | IsLastSeen(p, i) ensures n != p[i].info { assert p[i] in p; }
      NewHasNoMark(p, n);
    }
    if n.Online() { assert IsLastOnline(q, |p|); }
  }

  // The status of an observation, in terms of what was seen before it: the first is always new,
  // and after it
  // - it is new exactly when it is online and is not the network that was last seen online;
  // - it is a return exactly when it is that network and the client was offline just before;
  // - a hard NAT is reported exactly when the network was marked and every observation since,
  //   this one too, was of that same network. A return never reports one: an offline spell
  //   erases the mark.
  lemma StatusTellsHistory(ops: seq<Op>, n: NetInfo)
    requires Detected(ops) && !n.hardNat
    ensures var status := Check(After(ops), n).1;
            if !Seen(ops) then status == ChangedToNew
            else
              && (status == Offline <==> n.wanIpv4.None? && n.wanIpv6.None?)
              && (status == ChangedToNew <==> n.Online() && !exists i :: IsLastOnline(ops, i) && ops[i].info == n)
              && (status == ChangedToPrev <==>
                  && n.Online() && (exists i :: IsLastOnline(ops, i) && ops[i].info == n)
                  && (exists i :: IsLastSeen(ops, i) && !ops[i].info.Online()))
              && (status == HardNat <==>
                  && n.Online() && (exists i :: IsLastSeen(ops, i) && ops[i].info == n)
                  && (exists k :: MarkedAt(ops, k) && Seen(ops[..k])))
  {
    SlotsTellHistory(ops);
    var m := After(ops);
    if Seen(ops) {
      var s :| IsLastSeen(ops, s);
      assert ops[s] in ops;
      if m.lastOnline.value.Online() {
        var i :| IsLastOnline(ops, i);
        assert ops[i] in ops;
      }
      if m.current.value.Online() {
        assert exists i :: IsLastOnline(ops, i) by {
          assert IsLastOnline(ops, s);
        }
      }
    }
  }

}
