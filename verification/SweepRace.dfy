// The sweeper reads the clock before it takes the lock, and a record stamped later than that reading
// is dropped at once: after a store that gets the lock in between, or when the clock is set back.
module SweepRace {
  import opened Wrappers
  import opened Net
  import opened Text
  import opened Protocol
  import opened Wire
  import opened RelayPorts
  import opened Peering
  import opened FairLock
  import opened Server
  import opened ServerHistory
  import opened HandledAlone

  lemma Wakes(c: Config, s: State, w: nat, id: nat) returns (s1: State)
    requires w < |s.tasks| && s.tasks[w].pc == SweepSleep && s.locks.storage == Lock({}, None, [(id, Exclusive)])
    ensures Follows(c, s, Wake(w), s1)
    ensures s1.tasks == s.tasks[w := s.tasks[w].(pc := SweepWait(s.clock))] && s1.records == s.records
    ensures s1.locks.storage == Lock({}, None, [(id, Exclusive), (w, Exclusive)])
  {
    s1 := Apply(c, s, Wake(w));
  }

  lemma Grants(c: Config, s: State, w: nat, id: nat) returns (s1: State)
    requires id < |s.tasks| && s.tasks[id].pc.StoreWait?
    requires s.locks.storage == Lock({}, None, [(id, Exclusive), (w, Exclusive)])
    ensures Follows(c, s, Grant(id, StorageLock), s1)
    ensures s1.tasks == s.tasks[id := s.tasks[id].(pc := StoreHold(s.tasks[id].pc.a, s.tasks[id].pc.ip))]
    ensures s1.records == s.records && s1.locks.storage == Lock({}, Some(id), [(w, Exclusive)])
  {
    s1 := Apply(c, s, Grant(id, StorageLock));
  }

  lemma StoresNext(c: Config, s: State, w: nat, id: nat, stamp: Time) returns (s1: State)
    requires id < |s.tasks| && s.tasks[id].pc.StoreHold? && |s.tasks[id].pc.a.peers| == 1
    requires s.locks.storage == Lock({}, Some(id), [(w, Exclusive)])
    ensures Follows(c, s, Store(id, [stamp]), s1)
    ensures |s1.tasks| == |s.tasks| && (forall i :: 0 <= i < |s.tasks| && i != id ==> s1.tasks[i] == s.tasks[i])
    ensures s1.locks.storage == Lock({}, None, [(w, Exclusive)]) && s1.clock == stamp
    ensures s1.records == StoreAll(s.records, s.tasks[id].pc.a, s.tasks[id].pc.ip, [stamp])
  {
    s1 := Apply(c, s, Store(id, [stamp]));
  }

  // The sweeper w wakes while task id is about to store.
  lemma StoresAfterWake(c: Config, s: State, w: nat, id: nat, stamp: Time) returns (s1: State, s2: State, s3: State)
    requires w < |s.tasks| && s.tasks[w].pc == SweepSleep
    requires id < |s.tasks| && s.tasks[id].pc.StoreWait? && |s.tasks[id].pc.a.peers| == 1
    requires s.locks.storage == Lock({}, None, [(id, Exclusive)])
    ensures Follows(c, s, Wake(w), s1) && Follows(c, s1, Grant(id, StorageLock), s2)
        && Follows(c, s2, Store(id, [stamp]), s3)
    ensures |s3.tasks| == |s.tasks| && s3.tasks[w].pc == SweepWait(s.clock) && s3.clock == stamp
    ensures s3.locks.storage == Lock({}, None, [(w, Exclusive)])
    ensures var a := s.tasks[id].pc.a;
            s3.records == StoreAll(s.records, a, s.tasks[id].pc.ip, [stamp])
  {
    s1 := Wakes(c, s, w, id);
    s2 := Grants(c, s1, w, id);
    s3 := StoresNext(c, s2, w, id, stamp);
  }

  lemma SweepsNext(c: Config, s: State, w: nat) returns (s1: State, s2: State)
    requires w < |s.tasks| && s.tasks[w].pc.SweepWait? && s.locks.storage == Lock({}, None, [(w, Exclusive)])
    ensures Follows(c, s, Grant(w, StorageLock), s1) && Follows(c, s1, Sweep(w), s2)
    ensures s2.clock == s.clock && s2.records == SweepAll(s.records, s.tasks[w].pc.now)
  {
    s1 := Apply(c, s, Grant(w, StorageLock));
    s2 := Apply(c, s1, Sweep(w));
  }

  // From every state where a task is next to store and the sweeper is asleep, five steps drop
  // the new record with an age of zero: stamped at the very moment it is missing.
  lemma FreshRecordCanBeSwept(c: Config, s: State, w: nat, id: nat, stamp: Time)
    returns (s1: State, s2: State, stored: State, s4: State, swept: State)
    requires w < |s.tasks| && s.tasks[w].pc == SweepSleep
    requires id < |s.tasks| && s.tasks[id].pc.StoreWait? && |s.tasks[id].pc.a.peers| == 1
    requires s.locks.storage == Lock({}, None, [(id, Exclusive)])
    requires s.clock < stamp
    ensures Follows(c, s, Wake(w), s1) && Follows(c, s1, Grant(id, StorageLock), s2)
    ensures Follows(c, s2, Store(id, [stamp]), stored)
    ensures Follows(c, stored, Grant(w, StorageLock), s4) && Follows(c, s4, Sweep(w), swept)
    ensures var k := (s.tasks[id].pc.a.initiator, s.tasks[id].pc.a.peers[0]);
            && k in stored.records && stored.records[k].timestamp == swept.clock == stamp
            && k !in swept.records
  {
    var a := s.tasks[id].pc.a;
    StoreAllAt(s.records, a, s.tasks[id].pc.ip, [stamp], (a.initiator, a.peers[0]));
    s1, s2, stored := StoresAfterWake(c, s, w, id, stamp);
    s4, swept := SweepsNext(c, stored, w);
  }

  // ---------- From the start of the server ----------

  lemma FirstAnswer(c: Config, a: Announcement, from: IpAddr, t: Tables)
    requires !c.relayOn && |a.peers| == 1
    ensures LookupAll(c, a, from, map[], t, [1024]).0 == Some(map[a.peers[0] := Unknown])
  {
    LookupAnswers(c, a, from, map[], t, [1024]);
    assert a.peers[0] in a.peers;
    OneAnswer(a, from, map[], LookupAll(c, a, from, map[], t, [1024]).0.value, map[a.peers[0] := Unknown]);
  }

  // A lone client's announcement, up to the answer.
  lemma IsAnswered(c: Config, s0: State, ip: Ipv4Addr, input: Bytes, a: Announcement) returns (s: State)
    requires Initial(s0) && !c.relayOn && ParseRequest(input) == Accepted(a) && |a.peers| == 1
    ensures Reaches(c, s0, s) && s.locks == NOBODY && s.clock == s0.clock
    ensures s.tasks == s0.tasks + [Task(Replying(a, map[a.peers[0] := Unknown]), V4(ip), input)]
  {
    var id := |s0.tasks|;
    var s1 := WithConnection(s0, ip, input);
    Connects(c, s0, ip, input);
    FirstAnswer(c, a, V4(ip), s0.tables);
    s := ArrivesAndLooksUp(c, s1, id, a, [1024]);
    Onward(c, s0, s1, s);
    assert At(s1, id, Replying(a, map[a.peers[0] := Unknown]))
        == s0.tasks + [Task(Replying(a, map[a.peers[0] := Unknown]), V4(ip), input)];
  }

  // And on to where it waits to be stored.
  lemma WaitsToStore(c: Config, s0: State, ip: Ipv4Addr, input: Bytes, a: Announcement) returns (s: State)
    requires Initial(s0) && !c.relayOn && ParseRequest(input) == Accepted(a) && |a.peers| == 1
    ensures Reaches(c, s0, s) && s.locks.storage == Lock({}, None, [(|s0.tasks|, Exclusive)]) && s.clock == s0.clock
    ensures |s.tasks| == |s0.tasks| + 1 && s.tasks[0].pc == SweepSleep
    ensures s.tasks[|s0.tasks|].pc == StoreWait(a, ip)
  {
    var id := |s0.tasks|;
    var s1 := IsAnswered(c, s0, ip, input, a);
    ParsedIsValid(input);
    assert a.peers[0] in a.peers;
    s := SendsUnknown(c, s1, id, a.peers[0]);
    Onward(c, s0, s1, s);
  }

  lemma SendsUnknown(c: Config, s: State, id: nat, p: Str) returns (s': State)
    requires id < |s.tasks| && s.tasks[id].pc.Replying? && s.tasks[id].from.V4? && s.locks == NOBODY
    requires s.tasks[id].pc.answer == map[p := Unknown] && ValidWgKey(p)
    ensures Reaches(c, s, s') && s'.locks == NOBODY.(storage := Lock({}, None, [(id, Exclusive)]))
        && s'.clock == s.clock
    ensures s'.tasks == At(s, id, StoreWait(s.tasks[id].pc.a, s.tasks[id].from.v4))
  {
    var entries := UnknownFits(p);
    s' := Replies(c, s, id, entries);
    OneStep(c, s, Reply(id, entries, true, true), s');
  }

  // So it happens to the very first announcement of a server, if the sweeper wakes while the store
  // waits for its lock.
  lemma FirstRecordCanBeSwept(c: Config, s0: State, ip: Ipv4Addr, input: Bytes, a: Announcement, stamp: Time)
    returns (stored: State, swept: State)
    requires Initial(s0) && !c.relayOn && ParseRequest(input) == Accepted(a) && |a.peers| == 1
    requires s0.clock < stamp
    ensures Reaches(c, s0, stored) && Reaches(c, stored, swept)
    ensures var k := (a.initiator, a.peers[0]);
            && k in stored.records && stored.records[k].timestamp == swept.clock == stamp
            && k !in swept.records
  {
    var id := |s0.tasks|;
    var s := WaitsToStore(c, s0, ip, input, a);
    var s1, s2, s4;
    s1, s2, stored, s4, swept := FreshRecordCanBeSwept(c, s, 0, id, stamp);
    ThreeSteps(c, s, Wake(0), s1, Grant(id, StorageLock), s2, Store(id, [stamp]), stored);
    Onward(c, s0, s, stored);
    TwoSteps(c, stored, Grant(0, StorageLock), s4, Sweep(0), swept);
  }

  // Without any race: the clock is set back after the store, and the next sweep drops the record.
  lemma SetBackClockSweeps(c: Config, s0: State, ip: Ipv4Addr, input: Bytes, a: Announcement, stamp: Time,
                           earlier: Time)
    returns (stored: State, swept: State)
    requires Initial(s0) && !c.relayOn && ParseRequest(input) == Accepted(a) && |a.peers| == 1
    requires earlier < stamp
    ensures Reaches(c, s0, stored) && Reaches(c, stored, swept)
    ensures var k := (a.initiator, a.peers[0]);
            && k in stored.records && stored.records[k].timestamp == stamp && swept.clock == earlier
            && k !in swept.records
  {
    stored := FirstVisit(c, s0, ip, input, a, stamp);
    StoreAllAt(s0.records, a, ip, [stamp], (a.initiator, a.peers[0]));
    OneStep(c, stored, Tick(earlier), stored.(clock := earlier));
    swept := SweepsAlone(c, stored.(clock := earlier), 0);
    Onward(c, stored, stored.(clock := earlier), swept);
  }

  lemma FirstVisit(c: Config, s0: State, ip: Ipv4Addr, input: Bytes, a: Announcement, stamp: Time) returns (s: State)
    requires Initial(s0) && !c.relayOn && ParseRequest(input) == Accepted(a) && |a.peers| == 1
    ensures Reaches(c, s0, s) && s.locks == NOBODY && s.records == StoreAll(s0.records, a, ip, [stamp])
    ensures s.tasks == s0.tasks + [Task(Done, V4(ip), input)]
  {
    ParsedIsValid(input);
    assert a.peers[0] in a.peers;
    var entries := UnknownFits(a.peers[0]);
    s := Visits(c, s0, ip, input, a, [stamp], map[a.peers[0] := Unknown], entries);
  }

  lemma SweepsAlone(c: Config, s: State, w: nat) returns (s': State)
    requires w < |s.tasks| && s.tasks[w].pc == SweepSleep && s.locks == NOBODY
    ensures Reaches(c, s, s') && s'.clock == s.clock && s'.records == SweepAll(s.records, s.clock)
  {
    var s1 := WakesAlone(c, s, w);
    var s2;
    s2, s' := SweepsNext(c, s1, w);
    ThreeSteps(c, s, Wake(w), s1, Grant(w, StorageLock), s2, Sweep(w), s');
  }

  lemma WakesAlone(c: Config, s: State, w: nat) returns (s1: State)
    requires w < |s.tasks| && s.tasks[w].pc == SweepSleep && s.locks == NOBODY
    ensures Follows(c, s, Wake(w), s1)
    ensures s1.tasks == s.tasks[w := s.tasks[w].(pc := SweepWait(s.clock))] && s1.records == s.records
        && s1.clock == s.clock
    ensures s1.locks.storage == Lock({}, None, [(w, Exclusive)])
  {
    s1 := Apply(c, s, Wake(w));
  }

}
