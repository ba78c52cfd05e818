// What happened to the directory, as a sequence of events in the order of the critical
// sections, and what the directory's contents mean in terms of it.
module History {
  import opened Net
  import opened Text
  import opened Protocol
  import opened Peering

  datatype Event =
    | Looked(task: nat, ann: Announcement, from: IpAddr, answer: Response)
    | Replied(task: nat, frame: Bytes)
    | Stored(task: nat, ann: Announcement, ip: Ipv4Addr, stamps: seq<Time>)
    | Swept(now: Time)

  predicate Stamped(h: seq<Event>) {
    forall e :: e in h && e.Stored? ==> |e.stamps| == |e.ann.peers|
  }

  // The directory after the events.
  function Replay(h: seq<Event>): Records
    requires Stamped(h)
  {
    if h == [] then map[]
    else
      var before := Replay(h[..|h| - 1]);
      match h[|h| - 1]
      case Stored(_, a, ip, stamps) => StoreAll(before, a, ip, stamps)
      case Swept(now) => SweepAll(before, now)
      case _ => before
  }

  // ---------- The meaning of the directory ----------

  // The event stores an announcement of k's first key naming its second.
  predicate Touches(e: Event, k: (Str, Str)) {
    e.Stored? && e.ann.initiator == k.0 && k.1 in e.ann.peers
  }

  function RecordOf(e: Event, y: Str): Record
    requires e.Stored? && |e.stamps| == |e.ann.peers| && y in e.ann.peers
  {
    RecordFor(e.ann, e.ip, e.stamps[LastIndex(e.ann.peers, y)])
  }

  ghost predicate IsLatest(h: seq<Event>, i: int, k: (Str, Str)) {
    && 0 <= i < |h|
    && Touches(h[i], k)
    && forall j :: i < j < |h| ==> !Touches(h[j], k)
  }

  ghost predicate SurvivesSweeps(h: seq<Event>, i: int, stamp: Time)
    requires 0 <= i
  {
    forall j :: i < j < |h| && h[j].Swept? ==> Kept(h[j].now, stamp)
  }

  // The record that the latest store for k wrote, if no sweep since has dropped it.
  ghost predicate Holds(h: seq<Event>, i: int, k: (Str, Str), r: Record)
    requires Stamped(h)
  {
    IsLatest(h, i, k) && r == RecordOf(h[i], k.1) && SurvivesSweeps(h, i, r.timestamp)
  }

  // An event that does not store for k leaves what holds there, unless it is a sweep that drops it.
  lemma HoldsExtends(p: seq<Event>, e: Event, i: int, k: (Str, Str), r: Record)
    requires Stamped(p + [e]) && Stamped(p) && !Touches(e, k)
    ensures Holds(p + [e], i, k, r) <==> Holds(p, i, k, r) && (e.Swept? ==> Kept(e.now, r.timestamp))
  {
    var h := p + [e];
    assert h[|p|] == e && forall j :: 0 <= j < |p| ==> h[j] == p[j];
  }

  // An event that stores for k is the one that holds there.
  lemma HoldsAnew(p: seq<Event>, e: Event, i: int, k: (Str, Str), r: Record)
    requires Stamped(p + [e]) && Touches(e, k)
    ensures Holds(p + [e], i, k, r) <==> i == |p| && |e.stamps| == |e.ann.peers| && r == RecordOf(e, k.1)
  {
    assert (p + [e])[|p|] == e && e in p + [e];
  }

  // The directory holds r at k exactly when r is what the latest store for k wrote and every
  // sweep since has kept it.
  lemma {:induction false} DirectoryIsLatestStore(h: seq<Event>, k: (Str, Str))
    requires Stamped(h)
    ensures k in Replay(h) <==> exists i, r :: Holds(h, i, k, r)
    ensures forall i, r :: Holds(h, i, k, r) ==> k in Replay(h) && Replay(h)[k] == r
  {
    if h != [] {
      var n := |h| - 1;
      var p, e := h[..n], h[n];
      assert h == p + [e] && e in h;
      DirectoryIsLatestStore(p, k);
      if e.Stored? {
        StoreAllAt(Replay(p), e.ann, e.ip, e.stamps, k);
      }
      if Touches(e, k) {
        forall i, r ensures Holds(h, i, k, r) <==> i == n && r == RecordOf(e, k.1) {
          HoldsAnew(p, e, i, k, r);
        }
        assert Holds(h, n, k, RecordOf(e, k.1));
      } else {
        forall i, r
          ensures Holds(h, i, k, r) <==> Holds(p, i, k, r) && (e.Swept? ==> Kept(e.now, r.timestamp))
        {
          HoldsExtends(p, e, i, k, r);
        }
      }
    }
  }

  // Stores, no two of them by the same initiator.
  ghost predicate DistinctStores(s: seq<Event>) {
    && (forall e :: e in s ==> e.Stored?)
    && (forall i, j :: 0 <= i < j < |s| ==> s[i].ann.initiator != s[j].ann.initiator)
  }

  // Stores by different initiators commute, each with its own stamps: listed in any two orders,
  // they lead from the same events to the same directory.
  lemma StoresCommute(before: seq<Event>, s: seq<Event>, t: seq<Event>)
    requires Stamped(before + s) && Stamped(before + t)
    requires DistinctStores(s) && DistinctStores(t)
    requires forall e :: e in s <==> e in t
    ensures Replay(before + s) == Replay(before + t)
  {
    forall k
      ensures k in Replay(before + s) <==> k in Replay(before + t)
      ensures k in Replay(before + s) ==> Replay(before + s)[k] == Replay(before + t)[k]
    {
      ReorderedHolds(before, s, t, k);
      ReorderedHolds(before, t, s, k);
    }
  }

  lemma ReorderedHolds(before: seq<Event>, s: seq<Event>, t: seq<Event>, k: (Str, Str))
    requires Stamped(before + s) && Stamped(before + t)
    requires DistinctStores(s) && DistinctStores(t)
    requires forall e :: e in s <==> e in t
    ensures k in Replay(before + s) ==> k in Replay(before + t) && Replay(before + t)[k] == Replay(before + s)[k]
  {
    DirectoryIsLatestStore(before + s, k);
    DirectoryIsLatestStore(before + t, k);
    if k in Replay(before + s) {
      var i, r :| Holds(before + s, i, k, r);
      var i' := HoldsMoves(before, s, t, k, i, r);
      assert Holds(before + t, i', k, r);
    }
  }

  lemma HoldsMoves(before: seq<Event>, s: seq<Event>, t: seq<Event>, k: (Str, Str), i: int, r: Record) returns (i': int)
    requires Stamped(before + s) && Stamped(before + t)
    requires DistinctStores(s) && DistinctStores(t)
    requires forall e :: e in s <==> e in t
    requires Holds(before + s, i, k, r)
    ensures Holds(before + t, i', k, r)
  {
    var b, hs, ht := |before|, before + s, before + t;
    forall j | b <= j < |ht| ensures ht[j].Stored? && ht[j] in t {
      assert ht[j] == t[j - b];
    }
    if i < b {
      i' := i;
      assert forall j :: 0 <= j < b ==> ht[j] == hs[j];
      forall j | b <= j < |ht| ensures !Touches(ht[j], k) {
        UntouchedElsewhere(before, s, k, i, ht[j]);
      }
    } else {
      assert hs[i] == s[i - b] && s[i - b] in t;
      var m :| 0 <= m < |t| && t[m] == s[i - b];
      i' := b + m;
      assert ht[i'] == hs[i];
      forall j | i' < j < |ht| ensures !Touches(ht[j], k) {
        assert ht[j] == t[j - b];
      }
    }
  }

  lemma UntouchedElsewhere(before: seq<Event>, s: seq<Event>, k: (Str, Str), i: int, e: Event)
    requires IsLatest(before + s, i, k) && i < |before| && e in s
    ensures !Touches(e, k)
  {
    var j :| 0 <= j < |s| && s[j] == e;
    assert (before + s)[|before| + j] == e;
  }

}
