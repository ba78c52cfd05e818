// Runs of the server in which one connection after the other is served: a connection that the
// other tasks leave alone gets to its end, with the effect that the handler promises. SoloPaths has
// the other direction, for every end it can get to.
module HandledAlone {
  import opened Wrappers
  import opened Net
  import opened Text
  import opened Protocol
  import opened Postcard
  import opened Wire
  import RelayPorts
  import opened Peering
  import opened History
  import opened FairLock
  import opened Server
  import Handler

  const NOBODY := Locks(FREE, FREE, FREE)

  // s' can be reached from s by steps of the machine.
  ghost predicate Reaches(c: Config, s: State, s': State) {
    exists run, steps :: IsPath(c, run, steps) && run[0] == s && run[|steps|] == s'
  }

  lemma OneStep(c: Config, s: State, step: Step, s': State)
    requires Follows(c, s, step, s')
    ensures Reaches(c, s, s')
  {
    assert IsPath(c, [s, s'], [step]);
  }

  lemma Onward(c: Config, s: State, s1: State, s2: State)
    requires Reaches(c, s, s1) && Reaches(c, s1, s2)
    ensures Reaches(c, s, s2)
  {
    var r1, t1 :| IsPath(c, r1, t1) && r1[0] == s && r1[|t1|] == s1;
    var r2, t2 :| IsPath(c, r2, t2) && r2[0] == s1 && r2[|t2|] == s2;
    var run, steps := r1[..|t1|] + r2, t1 + t2;
    forall i | 0 <= i < |steps| ensures Follows(c, run[i], steps[i], run[i + 1]) {
      if i < |t1| {
        assert Follows(c, r1[i], t1[i], r1[i + 1]);
      } else {
        assert Follows(c, r2[i - |t1|], t2[i - |t1|], r2[i - |t1| + 1]);
      }
    }
    assert IsPath(c, run, steps);
  }

  lemma TwoSteps(c: Config, s: State, t1: Step, s1: State, t2: Step, s2: State)
    requires Follows(c, s, t1, s1) && Follows(c, s1, t2, s2)
    ensures Reaches(c, s, s2)
  {
    OneStep(c, s, t1, s1);
    OneStep(c, s1, t2, s2);
    Onward(c, s, s1, s2);
  }

  lemma ThreeSteps(c: Config, s: State, t1: Step, s1: State, t2: Step, s2: State, t3: Step, s3: State)
    requires Follows(c, s, t1, s1) && Follows(c, s1, t2, s2) && Follows(c, s2, t3, s3)
    ensures Reaches(c, s, s3)
  {
    TwoSteps(c, s, t1, s1, t2, s2);
    OneStep(c, s2, t3, s3);
    Onward(c, s, s2, s3);
  }

  // What the surroundings decide, they decide freely: new connections and the clock at any time, how
  // a handshake ends, the free ports, whether an answer in any order of its entries goes out and the
  // connection is closed, the clock readings of a store, and whether a status report can be written.
  lemma SurroundingsAreFree(s: State, id: nat)
    requires id < |s.tasks|
    ensures forall to: Time :: Enabled(s, Tick(to))
    ensures forall from: IpAddr, input: Bytes :: Enabled(s, Spawn(from, input))
    ensures s.tasks[id].pc.Accepting? ==> forall ok :: Enabled(s, Handshake(id, ok))
    ensures s.tasks[id].pc.LookupHold? ==>
              forall free: seq<uint16> :: |free| == |s.tasks[id].pc.a.peers| ==> Enabled(s, Look(id, free))
    ensures s.tasks[id].pc.Replying? ==>
              && (forall entries: seq<(Str, Endpoint)>, closed :: Enabled(s, Reply(id, entries, false, closed)))
              && (forall entries: seq<(Str, Endpoint)>, closed ::
                    Enumerates(entries, s.tasks[id].pc.answer) && |EncResponse(entries)| < 0x1_0000_0000 ==>
                      Enabled(s, Reply(id, entries, true, closed)))
    ensures s.tasks[id].pc.StoreHold? ==>
              forall stamps :: |stamps| == |s.tasks[id].pc.a.peers| ==> Enabled(s, Store(id, stamps))
    ensures s.tasks[id].pc.StatusStorageHold? || s.tasks[id].pc.StatusRelayHold? || s.tasks[id].pc.StatusStatsHold? ==>
              forall ok :: Enabled(s, Status(id, ok))
    ensures s.tasks[id].pc.SweepSleep? || s.tasks[id].pc.StatusSleep? ==> Enabled(s, Wake(id))
  {
  }

  function At(s: State, id: nat, pc: Pc): seq<Task>
    requires id < |s.tasks|
  {
    s.tasks[id := s.tasks[id].(pc := pc)]
  }

  // A task that used no lock goes on without one, or queues for the storage.
  lemma MovesFree(s: State, id: nat, pc: Pc)
    requires id < |s.tasks| && s.locks == NOBODY
    requires s.tasks[id].pc.Accepting? || s.tasks[id].pc.Reading? || s.tasks[id].pc.Replying?
    requires pc.Reading? || pc.LookupWait? || pc.StoreWait?
    ensures Move(s, id, pc) ==
            s.(tasks := At(s, id, pc),
               locks := if pc.Reading? then NOBODY
                        else NOBODY.(storage := Lock({}, None, [(id, if pc.LookupWait? then Shared else Exclusive)])))
  {
  }

  lemma Shakes(c: Config, s: State, id: nat)
    requires id < |s.tasks| && s.tasks[id].pc == Accepting && s.locks == NOBODY
    ensures Follows(c, s, Handshake(id, true), s.(tasks := At(s, id, Reading)))
  {
  }

  lemma ParsesTo(c: Config, s: State, id: nat, a: Announcement)
    requires id < |s.tasks| && s.tasks[id].pc == Reading && ParseRequest(s.tasks[id].input) == Accepted(a)
    ensures Follows(c, s, Parse(id), Move(s, id, LookupWait(a)))
  {
  }

  lemma Parses(c: Config, s: State, id: nat, a: Announcement, s': State)
    requires id < |s.tasks| && s.tasks[id].pc == Reading && s.locks == NOBODY
    requires ParseRequest(s.tasks[id].input) == Accepted(a)
    requires s' == s.(tasks := At(s, id, LookupWait(a)), locks := NOBODY.(storage := Lock({}, None, [(id, Shared)])))
    ensures Follows(c, s, Parse(id), s')
  {
    MovesFree(s, id, LookupWait(a));
    ParsesTo(c, s, id, a);
  }

  // From the handshake to the announcement: the task waits for the storage.
  lemma Arrives(c: Config, s: State, id: nat, a: Announcement) returns (s': State)
    requires id < |s.tasks| && s.tasks[id].pc == Accepting && s.locks == NOBODY
    requires ParseRequest(s.tasks[id].input) == Accepted(a)
    ensures Reaches(c, s, s')
    ensures s' == s.(tasks := At(s, id, LookupWait(a)), locks := NOBODY.(storage := Lock({}, None, [(id, Shared)])))
  {
    Shakes(c, s, id);
    var s1 := s.(tasks := At(s, id, Reading));
    s' := s.(tasks := At(s, id, LookupWait(a)), locks := NOBODY.(storage := Lock({}, None, [(id, Shared)])));
    assert At(s1, id, LookupWait(a)) == At(s, id, LookupWait(a));
    Parses(c, s1, id, a, s');
    TwoSteps(c, s, Handshake(id, true), s1, Parse(id), s');
  }

  // Both locks, the lookup, and out of the critical section.
  lemma LooksUp(c: Config, s: State, id: nat, a: Announcement, free: seq<uint16>) returns (s': State)
    requires id < |s.tasks| && s.tasks[id].pc == LookupWait(a)
        && s.locks == NOBODY.(storage := Lock({}, None, [(id, Shared)]))
    requires |free| == |a.peers| && LookupAll(c, a, s.tasks[id].from, s.records, s.tables, free).0.Some?
    ensures Reaches(c, s, s')
    ensures var (m, t) := LookupAll(c, a, s.tasks[id].from, s.records, s.tables, free);
            s' == s.(tasks := At(s, id, Replying(a, m.value)), locks := NOBODY, tables := t,
                     history := s.history + [Looked(id, a, s.tasks[id].from, m.value)])
  {
    var s1 := Apply(c, s, Grant(id, StorageLock));
    assert s1.locks == Locks(Lock({id}, None, []), Lock({}, None, [(id, Exclusive)]), FREE);
    var s2 := Apply(c, s1, Grant(id, RelayLock));
    assert s2.locks == Locks(Lock({id}, None, []), Lock({}, Some(id), []), FREE);
    s' := Apply(c, s2, Look(id, free));
    ThreeSteps(c, s, Grant(id, StorageLock), s1, Grant(id, RelayLock), s2, Look(id, free), s');
  }

  lemma Replies(c: Config, s: State, id: nat, entries: seq<(Str, Endpoint)>) returns (s': State)
    requires id < |s.tasks| && s.tasks[id].pc.Replying? && s.tasks[id].from.V4? && s.locks == NOBODY
    requires Enumerates(entries, s.tasks[id].pc.answer) && |EncResponse(entries)| < 0x1_0000_0000
    ensures Follows(c, s, Reply(id, entries, true, true), s')
    ensures s' == s.(tasks := At(s, id, StoreWait(s.tasks[id].pc.a, s.tasks[id].from.v4)),
                     locks := NOBODY.(storage := Lock({}, None, [(id, Exclusive)])),
                     history := s.history + [Replied(id, ResponseFrame(entries))])
  {
    var pc := StoreWait(s.tasks[id].pc.a, s.tasks[id].from.v4);
    MovesFree(s, id, pc);
    s' := Move(s, id, pc).(history := s.history + [Replied(id, ResponseFrame(entries))]);
  }

  // The storage again, and the store.
  lemma Stores(c: Config, s: State, id: nat, stamps: seq<Time>) returns (s1: State, s': State)
    requires id < |s.tasks| && s.tasks[id].pc.StoreWait?
        && s.locks == NOBODY.(storage := Lock({}, None, [(id, Exclusive)]))
    requires |stamps| == |s.tasks[id].pc.a.peers|
    ensures Follows(c, s, Grant(id, StorageLock), s1) && Follows(c, s1, Store(id, stamps), s')
    ensures var a, ip := s.tasks[id].pc.a, s.tasks[id].pc.ip;
            s' == s.(tasks := At(s, id, if a.needsRelay then CountWait else Done),
                     locks := NOBODY.(stats := if a.needsRelay then Lock({}, None, [(id, Exclusive)]) else FREE),
                     records := StoreAll(s.records, a, ip, stamps),
                     clock := if stamps == [] then s.clock else stamps[|stamps| - 1],
                     history := s.history + [Stored(id, a, ip, stamps)])
  {
    s1 := Apply(c, s, Grant(id, StorageLock));
    assert s1 == s.(tasks := At(s, id, StoreHold(s.tasks[id].pc.a, s.tasks[id].pc.ip)),
                    locks := NOBODY.(storage := Lock({}, Some(id), [])));
    s' := Apply(c, s1, Store(id, stamps));
  }

  lemma RepliesAndStores(c: Config, s: State, id: nat, entries: seq<(Str, Endpoint)>, stamps: seq<Time>)
    returns (s': State)
    requires id < |s.tasks| && s.tasks[id].pc.Replying? && s.tasks[id].from.V4? && s.locks == NOBODY
    requires Enumerates(entries, s.tasks[id].pc.answer) && |EncResponse(entries)| < 0x1_0000_0000
    requires |stamps| == |s.tasks[id].pc.a.peers|
    ensures Reaches(c, s, s') && s'.tables == s.tables && s'.stats == s.stats
    ensures var a := s.tasks[id].pc.a;
            && s'.tasks == At(s, id, if a.needsRelay then CountWait else Done)
            && s'.locks == NOBODY.(stats := if a.needsRelay then Lock({}, None, [(id, Exclusive)]) else FREE)
            && s'.records == StoreAll(s.records, a, s.tasks[id].from.v4, stamps)
            && Replied(id, ResponseFrame(entries)) in s'.history
  {
    var s1 := Replies(c, s, id, entries);
    var s2, s3 := Stores(c, s1, id, stamps);
    ThreeSteps(c, s, Reply(id, entries, true, true), s1, Grant(id, StorageLock), s2, Store(id, stamps), s3);
    assert s3.history[|s.history|] == Replied(id, ResponseFrame(entries));
    s' := s3;
  }

  lemma Counts(c: Config, s: State, id: nat) returns (s': State)
    requires id < |s.tasks| && s.tasks[id].pc == CountWait
        && s.locks == NOBODY.(stats := Lock({}, None, [(id, Exclusive)]))
    ensures Reaches(c, s, s')
    ensures s' == s.(tasks := At(s, id, Done), locks := NOBODY,
        stats := s.stats.(relaysNeeded := s.stats.relaysNeeded + 1))
  {
    var s1 := Apply(c, s, Grant(id, StatsLock));
    assert s1.locks == NOBODY.(stats := Lock({}, Some(id), []));
    s' := Apply(c, s1, Count(id));
    TwoSteps(c, s, Grant(id, StatsLock), s1, Count(id), s');
  }

  lemma ArrivesAndLooksUp(c: Config, s: State, id: nat, a: Announcement, free: seq<uint16>) returns (s': State)
    requires id < |s.tasks| && s.tasks[id].pc == Accepting && s.locks == NOBODY
    requires ParseRequest(s.tasks[id].input) == Accepted(a) && |free| == |a.peers|
    requires LookupAll(c, a, s.tasks[id].from, s.records, s.tables, free).0.Some?
    ensures Reaches(c, s, s')
    ensures var (m, t) := LookupAll(c, a, s.tasks[id].from, s.records, s.tables, free);
            && s'.tasks == At(s, id, Replying(a, m.value)) && s'.locks == NOBODY
            && s'.tables == t && s'.records == s.records && s'.stats == s.stats && s'.clock == s.clock
  {
    var s1 := Arrives(c, s, id, a);
    s' := LooksUp(c, s1, id, a, free);
    Onward(c, s, s1, s');
  }

  // From the lookup's answer m and tables t to the end.
  lemma RunsOn(c: Config, s: State, s2: State, id: nat, a: Announcement, ip: Ipv4Addr, m: Response,
               t: RelayPorts.Tables, stamps: seq<Time>, entries: seq<(Str, Endpoint)>)
    returns (s': State)
    requires Reaches(c, s, s2) && id < |s.tasks| && s.tasks[id].from == V4(ip) && |stamps| == |a.peers|
    requires s2.tasks == At(s, id, Replying(a, m)) && s2.locks == NOBODY
    requires s2.tables == t && s2.records == s.records && s2.stats == s.stats
    requires Enumerates(entries, m) && |EncResponse(entries)| < 0x1_0000_0000
    ensures Reaches(c, s, s')
    ensures s'.tasks == At(s, id, Done) && s'.locks == NOBODY && Replied(id, ResponseFrame(entries)) in s'.history
    ensures s'.records == StoreAll(s.records, a, ip, stamps) && s'.tables == t
    ensures s'.stats == s.stats.(relaysNeeded := s.stats.relaysNeeded + (if a.needsRelay then 1 else 0))
  {
    var s3 := RepliesAndStores(c, s2, id, entries, stamps);
    Onward(c, s, s2, s3);
    s' := s3;
    if a.needsRelay {
      s' := Counts(c, s3, id);
      Onward(c, s, s3, s');
    }
  }

  lemma RunsThrough(c: Config, s: State, id: nat, a: Announcement, free: seq<uint16>, stamps: seq<Time>,
                    entries: seq<(Str, Endpoint)>)
    returns (s': State)
    requires id < |s.tasks| && s.tasks[id].pc == Accepting && s.tasks[id].from.V4? && s.locks == NOBODY
    requires ParseRequest(s.tasks[id].input) == Accepted(a) && |free| == |stamps| == |a.peers|
    requires var m := LookupAll(c, a, s.tasks[id].from, s.records, s.tables, free).0;
             m.Some? && Enumerates(entries, m.value) && |EncResponse(entries)| < 0x1_0000_0000
    ensures Reaches(c, s, s')
    ensures s'.tasks == At(s, id, Done) && s'.locks == NOBODY && Replied(id, ResponseFrame(entries)) in s'.history
    ensures s'.records == StoreAll(s.records, a, s.tasks[id].from.v4, stamps)
    ensures s'.tables == LookupAll(c, a, s.tasks[id].from, s.records, s.tables, free).1
    ensures s'.stats == s.stats.(relaysNeeded := s.stats.relaysNeeded + (if a.needsRelay then 1 else 0))
  {
    var s2 := ArrivesAndLooksUp(c, s, id, a, free);
    var (m, t) := LookupAll(c, a, s.tasks[id].from, s.records, s.tables, free);
    s' := RunsOn(c, s, s2, id, a, s.tasks[id].from.v4, m.value, t, stamps, entries);
  }

  // In the handler's terms.
  lemma IsServed(c: Config, s: State, s': State, a: Announcement, from: IpAddr, free: nat -> uint16,
                 stamps: nat -> Time, entries: seq<(Str, Endpoint)>)
    requires |EncResponse(entries)| < 0x1_0000_0000 && from.V4?
    requires var m := LookupAll(c, a, from, s.records, s.tables, Handler.Readings(|a.peers|, free)).0;
             m.Some? && Enumerates(entries, m.value)
    requires s'.records == StoreAll(s.records, a, from.v4, Handler.Readings(|a.peers|, stamps))
    requires s'.tables == LookupAll(c, a, from, s.records, s.tables, Handler.Readings(|a.peers|, free)).1
    requires s'.stats == s.stats.(relaysNeeded := s.stats.relaysNeeded + (if a.needsRelay then 1 else 0))
    ensures Handler.Serves(c, a, from, |ResponseFrame(entries)|, true, free, stamps,
                           Handler.View([], s.records, s.tables, s.stats.relaysNeeded),
                           Handler.View(ResponseFrame(entries), s'.records, s'.tables, s'.stats.relaysNeeded),
                           Handler.Finished)
  {
    assert [] + ResponseFrame(entries) == ResponseFrame(entries);
  }

  // A valid announcement from an IPv4 address, whose answer fits in a frame and whose connection
  // is closed in order, is served step by step as the handler serves it, and the task leaves the
  // other tasks and the locks as they were.
  lemma StepsServe(c: Config, s: State, id: nat, a: Announcement, free: nat -> uint16, stamps: nat -> Time,
                   entries: seq<(Str, Endpoint)>)
    returns (s': State)
    requires id < |s.tasks| && s.tasks[id].pc == Accepting && s.tasks[id].from.V4? && s.locks == NOBODY
    requires ParseRequest(s.tasks[id].input) == Accepted(a)
    requires var m := LookupAll(c, a, s.tasks[id].from, s.records, s.tables, Handler.Readings(|a.peers|, free)).0;
             m.Some? && Enumerates(entries, m.value) && |EncResponse(entries)| < 0x1_0000_0000
    ensures Reaches(c, s, s') && s'.tasks == At(s, id, Done) && s'.locks == NOBODY
    ensures Replied(id, ResponseFrame(entries)) in s'.history
    ensures Handler.Serves(c, a, s.tasks[id].from, |ResponseFrame(entries)|, true, free, stamps,
                           Handler.View([], s.records, s.tables, s.stats.relaysNeeded),
                           Handler.View(ResponseFrame(entries), s'.records, s'.tables, s'.stats.relaysNeeded),
                           Handler.Finished)
  {
    s' := RunsThrough(c, s, id, a, Handler.Readings(|a.peers|, free), Handler.Readings(|a.peers|, stamps), entries);
    IsServed(c, s, s', a, s.tasks[id].from, free, stamps, entries);
  }

  // A new connection at a moment when no task waits for or holds a lock.
  function WithConnection(s: State, ip: Ipv4Addr, input: Bytes): State {
    s.(tasks := s.tasks + [Task(Accepting, V4(ip), input)])
  }

  lemma Connects(c: Config, s: State, ip: Ipv4Addr, input: Bytes)
    ensures Reaches(c, s, WithConnection(s, ip, input))
  {
    OneStep(c, s, Spawn(V4(ip), input), WithConnection(s, ip, input));
  }

  // A client connects from ip, sends a, gets the answer in the order of entries, and is stored.
  lemma Visits(c: Config, s: State, ip: Ipv4Addr, input: Bytes, a: Announcement, stamps: seq<Time>,
               m: Response, entries: seq<(Str, Endpoint)>)
    returns (s': State)
    requires s.locks == NOBODY && !c.relayOn && ParseRequest(input) == Accepted(a) && |stamps| == |a.peers|
    requires AnswersAll(false, m, a, V4(ip), s.records) && Enumerates(entries, m)
    requires |EncResponse(entries)| < 0x1_0000_0000
    ensures Reaches(c, s, s') && s'.locks == NOBODY
    ensures s'.tasks == s.tasks + [Task(Done, V4(ip), input)]
    ensures s'.records == StoreAll(s.records, a, ip, stamps)
    ensures Replied(|s.tasks|, ResponseFrame(entries)) in s'.history
  {
    var id, free := |s.tasks|, seq(|a.peers|, _ => 1024);
    var s1 := WithConnection(s, ip, input);
    Connects(c, s, ip, input);
    LookupAnswers(c, a, V4(ip), s.records, s.tables, free);
    OneAnswer(a, V4(ip), s.records, m, LookupAll(c, a, V4(ip), s.records, s.tables, free).0.value);
    s' := RunsThrough(c, s1, id, a, free, stamps, entries);
    Onward(c, s, s1, s');
  }

  // With relaying off, the records determine the answer.
  lemma OneAnswer(a: Announcement, from: IpAddr, rs: Records, m: Response, n: Response)
    requires AnswersAll(false, m, a, from, rs) && AnswersAll(false, n, a, from, rs)
    ensures m == n
  {
    forall p | p in m ensures m[p] == n[p] {
      assert Answers(false, m[p], p, a, from, rs) && Answers(false, n[p], p, a, from, rs);
    }
  }

  // The first answers a server gives.
  lemma UnknownFits(p: Str) returns (entries: seq<(Str, Endpoint)>)
    requires ValidWgKey(p)
    ensures |EncResponse(entries)| == 47 && Enumerates(entries, map[p := Unknown])
  {
    entries := [(p, Unknown)];
    assert entries[1..] == [];
    assert EncMany(entries, EncEntry) == EncEntry(entries[0]) + EncMany(entries[1..], EncEntry);
    assert |EncStr(p)| == 45;
  }

}
