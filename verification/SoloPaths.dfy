// Every way in which the step machine can take one connection from its beginning to its end, while
// no other task moves, has an effect that the handler allows, unless its TLS handshake fails.
module SoloPaths {
  import opened Wrappers
  import opened Net
  import opened Text
  import opened Protocol
  import opened Postcard
  import opened Wire
  import opened RelayPorts
  import opened Peering
  import opened History
  import opened Server
  import Handler

  // Only task id moves; the clock may be set at any time.
  ghost predicate Solo(steps: seq<Step>, id: nat) {
    forall step :: step in steps ==> step.Tick? || (!step.Spawn? && step.id == id)
  }

  datatype End = TlsFailed | Refused | Panicked | Unsent | Unstored | Stored

  // What the task was given on its way, and how it ended.
  datatype Trail = Trail(free: seq<uint16>, entries: seq<(Str, Endpoint)>, stamps: seq<Time>, end: End)

  predicate SameData(s0: State, s: State) {
    s.records == s0.records && s.tables == s0.tables && s.stats == s0.stats
  }

  predicate OnlyCountsTls(s0: State, s: State) {
    && s.records == s0.records && s.tables == s0.tables && s.history == s0.history
    && s.stats == s0.stats.(tlsErrors := s0.stats.tlsErrors + 1)
  }

  function Answer(c: Config, s0: State, id: nat, a: Announcement, tr: Trail): (Option<Response>, Tables)
    requires id < |s0.tasks| && |tr.free| == |a.peers|
  {
    LookupAll(c, a, s0.tasks[id].from, s0.records, s0.tables, tr.free)
  }

  // The task has looked up in the directory as it was at the start, and changed nothing else.
  predicate HasLooked(c: Config, s0: State, s: State, id: nat, a: Announcement, tr: Trail)
    requires id < |s0.tasks|
  {
    && |tr.free| == |a.peers|
    && Answer(c, s0, id, a, tr).0.Some? && s.tables == Answer(c, s0, id, a, tr).1
    && s.records == s0.records && s.stats == s0.stats
  }

  ghost predicate Carries(c: Config, s0: State, id: nat, a: Announcement, tr: Trail)
    requires id < |s0.tasks| && |tr.free| == |a.peers| && Answer(c, s0, id, a, tr).0.Some?
  {
    Enumerates(tr.entries, Answer(c, s0, id, a, tr).0.value) && |EncResponse(tr.entries)| < 0x1_0000_0000
  }

  function LookedEvent(c: Config, s0: State, id: nat, a: Announcement, tr: Trail): Event
    requires id < |s0.tasks| && |tr.free| == |a.peers| && Answer(c, s0, id, a, tr).0.Some?
  {
    Looked(id, a, s0.tasks[id].from, Answer(c, s0, id, a, tr).0.value)
  }

  // The answer has gone out.
  ghost predicate HasReplied(c: Config, s0: State, s: State, id: nat, a: Announcement, tr: Trail)
    requires id < |s0.tasks|
  {
    && HasLooked(c, s0, s, id, a, tr) && Carries(c, s0, id, a, tr)
    && s.history == s0.history + [LookedEvent(c, s0, id, a, tr), Replied(id, ResponseFrame(tr.entries))]
  }

  // The announcement is stored; counted says whether it was counted as needing a relay.
  ghost predicate HasStored(c: Config, s0: State, s: State, id: nat, a: Announcement, tr: Trail, counted: bool)
    requires id < |s0.tasks|
  {
    && |tr.free| == |tr.stamps| == |a.peers| && Answer(c, s0, id, a, tr).0.Some? && Carries(c, s0, id, a, tr)
    && s0.tasks[id].from.V4?
    && s.tables == Answer(c, s0, id, a, tr).1
    && s.records == StoreAll(s0.records, a, s0.tasks[id].from.v4, tr.stamps)
    && s.stats == s0.stats.(relaysNeeded := s0.stats.relaysNeeded + if counted then 1 else 0)
    && s.history == s0.history + [LookedEvent(c, s0, id, a, tr), Replied(id, ResponseFrame(tr.entries)),
                                  Event.Stored(id, a, s0.tasks[id].from.v4, tr.stamps)]
  }

  ghost predicate Over(c: Config, request: Request, s0: State, s: State, id: nat, tr: Trail)
    requires id < |s0.tasks|
  {
    match tr.end
    case TlsFailed => OnlyCountsTls(s0, s)
    case Refused => SameData(s0, s) && s.history == s0.history && !request.Accepted?
    case Panicked =>
      && request.Accepted? && |tr.free| == |request.a.peers|
      && Answer(c, s0, id, request.a, tr).0.None? && s.tables == Answer(c, s0, id, request.a, tr).1
      && s.records == s0.records && s.stats == s0.stats && s.history == s0.history
    case Unsent =>
      && request.Accepted? && HasLooked(c, s0, s, id, request.a, tr)
      && s.history == s0.history + [LookedEvent(c, s0, id, request.a, tr)]
    case Unstored => request.Accepted? && HasReplied(c, s0, s, id, request.a, tr)
    case Stored => request.Accepted? && HasStored(c, s0, s, id, request.a, tr, request.a.needsRelay)
  }

  // Where a task that moves alone from state s0 on can be, and what it has done by then; failed says
  // whether its TLS handshake has failed.
  ghost predicate Phase(c: Config, request: Request, s0: State, s: State, id: nat, tr: Trail, failed: bool) {
    && id < |s0.tasks| && |s.tasks| == |s0.tasks|
    && s.tasks == s0.tasks[id := s0.tasks[id].(pc := s.tasks[id].pc)]
    && (failed ==> s.tasks[id].pc.TlsFailedWait? || s.tasks[id].pc.TlsFailedHold? || s.tasks[id].pc.Done?)
    && match s.tasks[id].pc
       case Accepting => SameData(s0, s) && s.history == s0.history
       case TlsFailedWait => failed && SameData(s0, s) && s.history == s0.history
       case TlsFailedHold => failed && SameData(s0, s) && s.history == s0.history
       case Reading => SameData(s0, s) && s.history == s0.history
       case LookupWait(a) => SameData(s0, s) && s.history == s0.history && request == Accepted(a)
       case RelayWait(a) => SameData(s0, s) && s.history == s0.history && request == Accepted(a)
       case LookupHold(a) => SameData(s0, s) && s.history == s0.history && request == Accepted(a)
       case Replying(a, m) =>
         && request == Accepted(a) && HasLooked(c, s0, s, id, a, tr) && Answer(c, s0, id, a, tr).0 == Some(m)
         && s.history == s0.history + [LookedEvent(c, s0, id, a, tr)]
       case StoreWait(a, ip) => request == Accepted(a) && s0.tasks[id].from == V4(ip) && HasReplied(c, s0, s, id, a, tr)
       case StoreHold(a, ip) => request == Accepted(a) && s0.tasks[id].from == V4(ip) && HasReplied(c, s0, s, id, a, tr)
       case CountWait =>
         request.Accepted? && request.a.needsRelay && HasStored(c, s0, s, id, request.a, tr, false)
       case CountHold =>
         request.Accepted? && request.a.needsRelay && HasStored(c, s0, s, id, request.a, tr, false)
       case Done => failed == tr.end.TlsFailed? && Over(c, request, s0, s, id, tr)
       case _ => false
  }

  lemma LookKeepsPhase(c: Config, request: Request, s0: State, s: State, id: nat, tr: Trail, failed: bool,
                      free: seq<uint16>)
    returns (tr': Trail)
    requires Phase(c, request, s0, s, id, tr, failed) && Enabled(s, Look(id, free))
    ensures Phase(c, request, s0, Apply(c, s, Look(id, free)), id, tr', failed)
  {
    tr' := tr.(free := free, end := Panicked);
  }

  lemma ReplyKeepsPhase(c: Config, request: Request, s0: State, s: State, id: nat, tr: Trail, failed: bool,
                        entries: seq<(Str, Endpoint)>, written: bool, closed: bool)
    returns (tr': Trail)
    requires Phase(c, request, s0, s, id, tr, failed) && Enabled(s, Reply(id, entries, written, closed))
    ensures Phase(c, request, s0, Apply(c, s, Reply(id, entries, written, closed)), id, tr', failed)
  {
    tr' := if written then tr.(entries := entries, end := Unstored) else tr.(end := Unsent);
  }

  lemma StoreKeepsPhase(c: Config, request: Request, s0: State, s: State, id: nat, tr: Trail, failed: bool,
                       stamps: seq<Time>)
    returns (tr': Trail)
    requires Phase(c, request, s0, s, id, tr, failed) && Enabled(s, Store(id, stamps))
    ensures Phase(c, request, s0, Apply(c, s, Store(id, stamps)), id, tr', failed)
  {
    tr' := tr.(stamps := stamps, end := End.Stored);
  }

  lemma ParseKeepsPhase(c: Config, request: Request, s0: State, s: State, id: nat, tr: Trail, failed: bool)
    returns (tr': Trail)
    requires Phase(c, request, s0, s, id, tr, failed) && Enabled(s, Parse(id))
    requires request == ParseRequest(s0.tasks[id].input)
    ensures Phase(c, request, s0, Apply(c, s, Parse(id)), id, tr', failed)
  {
    tr' := tr.(end := Refused);
  }

  lemma TickKeepsPhase(c: Config, request: Request, s0: State, s: State, id: nat, tr: Trail, failed: bool,
                       step: Step)
    requires Phase(c, request, s0, s, id, tr, failed) && step.Tick?
    ensures Phase(c, request, s0, Apply(c, s, step), id, tr, failed)
  {
  }

  lemma GrantKeepsPhase(c: Config, request: Request, s0: State, s: State, id: nat, tr: Trail, failed: bool,
                       l: LockId)
    requires Phase(c, request, s0, s, id, tr, failed) && Enabled(s, Grant(id, l))
    ensures Phase(c, request, s0, Apply(c, s, Grant(id, l)), id, tr, failed)
  {
  }

  lemma HandshakeKeepsPhase(c: Config, request: Request, s0: State, s: State, id: nat, tr: Trail, failed: bool,
                            ok: bool)
    requires Phase(c, request, s0, s, id, tr, failed) && Enabled(s, Handshake(id, ok))
    ensures Phase(c, request, s0, Apply(c, s, Handshake(id, ok)), id, tr, failed || !ok)
  {
  }

  lemma OtherKeepsPhase(c: Config, request: Request, s0: State, s: State, id: nat, tr: Trail, failed: bool,
                        step: Step)
    returns (tr': Trail)
    requires Phase(c, request, s0, s, id, tr, failed) && Enabled(s, step)
    requires !step.Tick? && !step.Spawn? && step.id == id
    requires !step.Look? && !step.Reply? && !step.Store? && !step.Parse? && !step.Grant? && !step.Handshake?
    ensures Phase(c, request, s0, Apply(c, s, step), id, tr', failed)
  {
    tr' := if step.CountTls? then tr.(end := TlsFailed) else tr.(end := End.Stored);
  }

  // The steps that leave no event.
  lemma QuietStepKeepsPhase(c: Config, request: Request, s0: State, s: State, id: nat, tr: Trail, failed: bool,
                            step: Step)
    returns (tr': Trail)
    requires Phase(c, request, s0, s, id, tr, failed) && Enabled(s, step)
    requires step.Tick? || (!step.Spawn? && step.id == id)
    requires !step.Look? && !step.Reply? && !step.Store?
    requires request == ParseRequest(s0.tasks[id].input)
    ensures Phase(c, request, s0, Apply(c, s, step), id, tr', failed || step == Handshake(id, false))
  {
    if step.Tick? {
      TickKeepsPhase(c, request, s0, s, id, tr, failed, step);
      tr' := tr;
    } else if step.Grant? {
      GrantKeepsPhase(c, request, s0, s, id, tr, failed, step.l);
      tr' := tr;
    } else if step.Handshake? {
      HandshakeKeepsPhase(c, request, s0, s, id, tr, failed, step.ok);
      tr' := tr;
    } else if step.Parse? {
      tr' := ParseKeepsPhase(c, request, s0, s, id, tr, failed);
    } else {
      tr' := OtherKeepsPhase(c, request, s0, s, id, tr, failed, step);
    }
  }

  lemma StepKeepsPhase(c: Config, request: Request, s0: State, s: State, id: nat, tr: Trail, failed: bool,
                       step: Step)
    returns (tr': Trail)
    requires Phase(c, request, s0, s, id, tr, failed) && Enabled(s, step)
    requires step.Tick? || (!step.Spawn? && step.id == id)
    requires request == ParseRequest(s0.tasks[id].input)
    ensures Phase(c, request, s0, Apply(c, s, step), id, tr', failed || step == Handshake(id, false))
  {
    if step.Look? {
      tr' := LookKeepsPhase(c, request, s0, s, id, tr, failed, step.free);
    } else if step.Reply? {
      tr' := ReplyKeepsPhase(c, request, s0, s, id, tr, failed, step.entries, step.written, step.closed);
    } else if step.Store? {
      tr' := StoreKeepsPhase(c, request, s0, s, id, tr, failed, step.stamps);
    } else {
      tr' := QuietStepKeepsPhase(c, request, s0, s, id, tr, failed, step);
    }
  }

  lemma FollowKeepsPhase(c: Config, request: Request, s0: State, s: State, s': State, id: nat, tr: Trail,
                         failed: bool, step: Step)
    returns (tr': Trail)
    requires Phase(c, request, s0, s, id, tr, failed) && Follows(c, s, step, s')
    requires step.Tick? || (!step.Spawn? && step.id == id)
    requires request == ParseRequest(s0.tasks[id].input)
    ensures Phase(c, request, s0, s', id, tr', failed || step == Handshake(id, false))
  {
    tr' := StepKeepsPhase(c, request, s0, s, id, tr, failed, step);
  }

  ghost predicate HoldsAt<T(!new)>(p: (nat, T) -> bool, k: nat) {
    exists t :: p(k, t)
  }

  // What holds at the start, and stays true by each of n steps, holds at the end.
  lemma {:induction false} StepByStep<T(!new)>(p: (nat, T) -> bool, n: nat)
    requires HoldsAt(p, 0) && forall k: nat :: k < n && HoldsAt(p, k) ==> HoldsAt(p, k + 1)
    ensures HoldsAt(p, n)
  {
    if n > 0 {
      StepByStep(p, n - 1);
      assert HoldsAt(p, n - 1 + 1);
    }
  }

  lemma PathBegins(c: Config, request: Request, s0: State, id: nat) returns (tr: Trail)
    requires id < |s0.tasks| && s0.tasks[id].pc == Accepting
    ensures Phase(c, request, s0, s0, id, tr, false)
  {
    tr := Trail([], [], [], Refused);
  }

  ghost function PhaseAt(c: Config, request: Request, run: seq<State>, steps: seq<Step>, id: nat):
    (nat, Trail) -> bool
    requires |run| == |steps| + 1
  {
    (k: nat, tr: Trail) =>
      k <= |steps| && Phase(c, request, run[0], run[k], id, tr, Handshake(id, false) in steps[..k])
  }

  lemma FailsBy(steps: seq<Step>, id: nat, k: nat) returns (failed: bool)
    requires Solo(steps, id) && k < |steps|
    ensures failed == (Handshake(id, false) in steps[..k])
    ensures (failed || steps[k] == Handshake(id, false)) == (Handshake(id, false) in steps[..k + 1])
    ensures steps[k].Tick? || (!steps[k].Spawn? && steps[k].id == id)
  {
    failed := Handshake(id, false) in steps[..k];
    assert steps[k] in steps && steps[..k + 1] == steps[..k] + [steps[k]];
  }

  lemma NextKeepsPhase(c: Config, request: Request, run: seq<State>, steps: seq<Step>, id: nat, k: nat)
    requires IsPath(c, run, steps) && Solo(steps, id) && k < |steps|
    requires id < |run[0].tasks| && request == ParseRequest(run[0].tasks[id].input)
    requires HoldsAt(PhaseAt(c, request, run, steps, id), k)
    ensures HoldsAt(PhaseAt(c, request, run, steps, id), k + 1)
  {
    var p := PhaseAt(c, request, run, steps, id);
    var failed := FailsBy(steps, id, k);
    var before: Trail :| p(k, before);
    var after := FollowKeepsPhase(c, request, run[0], run[k], run[k + 1], id, before, failed, steps[k]);
    assert p(k + 1, after);
  }

  lemma PathKeepsPhase(c: Config, request: Request, run: seq<State>, steps: seq<Step>, id: nat)
    requires IsPath(c, run, steps) && Solo(steps, id)
    requires id < |run[0].tasks| && run[0].tasks[id].pc == Accepting && request == ParseRequest(run[0].tasks[id].input)
    ensures HoldsAt(PhaseAt(c, request, run, steps, id), |steps|)
  {
    var p := PhaseAt(c, request, run, steps, id);
    var begins := PathBegins(c, request, run[0], id);
    assert p(0, begins);
    forall k: nat | k < |steps| && HoldsAt(p, k) ensures HoldsAt(p, k + 1) {
      NextKeepsPhase(c, request, run, steps, id, k);
    }
    StepByStep(p, |steps|);
  }

  // ---------- In the handler's terms ----------

  // What a task has written, by the history.
  function SentBy(h: seq<Event>, id: nat): Bytes {
    if h == [] then []
    else
      var e := h[|h| - 1];
      SentBy(h[..|h| - 1], id) + (if e.Replied? && e.task == id then e.frame else [])
  }

  predicate StoresIn(h: seq<Event>, id: nat) {
    exists e :: e in h && e.Stored? && e.task == id
  }

  // The handler turns state s0 into s for the connection of task id, given the room for writing, the
  // way the connection closes, the free ports and the clock readings: what the task sent is what the
  // handler wrote, and the task stored exactly when the handler finished with an accepted request.
  ghost predicate Explains(c: Config, request: Request, s0: State, s: State, id: nat, room: nat, closes: bool,
                           free: nat -> uint16, stamps: nat -> Time, r: Handler.Outcome)
    requires id < |s0.tasks| && |s0.history| <= |s.history|
  {
    var events := s.history[|s0.history|..];
    && Handler.Handles(c, request, s0.tasks[id].from, room, closes, free, stamps,
                       Handler.View([], s0.records, s0.tables, s0.stats.relaysNeeded),
                       Handler.View(SentBy(events, id), s.records, s.tables, s.stats.relaysNeeded), r)
    && (StoresIn(events, id) <==> request.Accepted? && r.Finished?)
    && s.stats.tlsErrors == s0.stats.tlsErrors
  }

  ghost predicate HandlerAllows(c: Config, request: Request, s0: State, s: State, id: nat)
    requires id < |s0.tasks| && |s0.history| <= |s.history|
  {
    exists room, closes, free, stamps, r :: Explains(c, request, s0, s, id, room, closes, free, stamps, r)
  }

  // The function that gives the values of xs in turn.
  function Source<T>(xs: seq<T>, default: T): nat -> T {
    (i: nat) => if i < |xs| then xs[i] else default
  }

  lemma SourceReads<T>(xs: seq<T>, default: T)
    ensures Handler.Readings(|xs|, Source(xs, default)) == xs
  {
  }

  lemma EventsOf(h: seq<Event>, more: seq<Event>, id: nat)
    requires |more| <= 3
    ensures (h + more)[|h|..] == more
    ensures |more| == 0 ==> SentBy(more, id) == []
    ensures |more| == 1 && more[0].Looked? ==> SentBy(more, id) == []
    ensures (|more| >= 2 && more[0].Looked? && more[1].Replied? && more[1].task == id
             && (|more| == 3 ==> more[2].Stored?)) ==>
              SentBy(more, id) == more[1].frame
  {
    if |more| >= 1 {
      assert more[..1] == [more[0]] && [more[0]][..0] == [];
      assert SentBy([more[0]], id) == SentBy([], id) + if more[0].Replied?
          && more[0].task == id then more[0].frame else [];
    }
    if |more| == 2 {
      assert more[..2] == more;
    }
    if |more| == 3 {
      assert more[..2][..1] == more[..1] && more[..2][1] == more[1];
    }
  }

  lemma RefusalIsAllowed(c: Config, request: Request, s0: State, s: State, id: nat, tr: Trail)
    requires id < |s0.tasks| && Over(c, request, s0, s, id, tr) && tr.end == Refused
    ensures HandlerAllows(c, request, s0, s, id)
  {
    EventsOf(s0.history, [], id);
    assert s.history == s0.history + [];
    var r := if request == Malformed(WrongMagic) || request.Invalid? then Handler.Finished else Handler.Failed;
    assert [] + (MAGIC + VERSION)[..0] == [];
    assert Explains(c, request, s0, s, id, 0, true, Source([], 0), Source([], 0), r);
  }

  lemma PanicIsAllowed(c: Config, request: Request, s0: State, s: State, id: nat, tr: Trail)
    requires id < |s0.tasks| && Over(c, request, s0, s, id, tr) && tr.end == Panicked
    ensures |s0.history| <= |s.history| && HandlerAllows(c, request, s0, s, id)
  {
    SourceReads(tr.free, 0);
    EventsOf(s0.history, [], id);
    assert s.history == s0.history + [];
    assert Explains(c, request, s0, s, id, 0, true, Source(tr.free, 0), Source([], 0), Handler.Outcome.Panicked);
  }

  // Every map can be listed.
  lemma {:induction false} HasEnumeration(m: Response) returns (entries: seq<(Str, Endpoint)>)
    ensures Enumerates(entries, m)
    decreases m.Keys
  {
    if m.Keys == {} {
      entries := [];
    } else {
      var k :| k in m;
      var rest := HasEnumeration(m - {k});
      entries := rest + [(k, m[k])];
      forall i | 0 <= i < |rest| ensures rest[i].0 != k {
        assert rest[i] in rest;
      }
      assert forall x :: x in m && x != k ==> x in m - {k} && (x, (m - {k})[x]) in rest;
      assert (k, m[k]) in entries && forall e :: e in rest ==> e in entries;
    }
  }

  // With no room at all, nothing of an answer goes out.
  lemma NothingGoesOut(entries: seq<(Str, Endpoint)>)
    ensures !Handler.GoesOut(entries, 0) && Handler.Sent(entries, 0) == []
  {
    assert |ResponseFrame(entries)| >= 8;
  }

  // With as much room as the answer takes, all of it does.
  lemma AllGoesOut(a: Announcement, entries: seq<(Str, Endpoint)>, from: IpAddr, closes: bool, stamps: nat -> Time,
                   t: Tables,
                   before: Handler.View, after: Handler.View, r: Handler.Outcome)
    requires |EncResponse(entries)| < 0x1_0000_0000 && before.output == []
    requires var stores := closes && from.V4?;
             && r == (if stores then Handler.Finished else Handler.Failed)
             && after == Handler.View(ResponseFrame(entries),
                                      if stores
                                      then StoreAll(before.records, a, from.v4, Handler.Readings(|a.peers|, stamps))
                                      else before.records,
                                      t, before.relaysNeeded + if stores && a.needsRelay then 1 else 0)
    ensures Handler.ServesWith(a, entries, from, |ResponseFrame(entries)|, closes, stamps, t, before, after, r)
  {
    assert Handler.Sent(entries, |ResponseFrame(entries)|) == ResponseFrame(entries);
    assert [] + ResponseFrame(entries) == ResponseFrame(entries);
  }

  // What the history says of a task that has sent a frame, and perhaps stored.
  lemma SentIs(h: seq<Event>, h': seq<Event>, id: nat, looked: Event, frame: Bytes, stored: seq<Event>)
    requires looked.Looked? && |stored| <= 1 && (stored != [] ==> stored[0].Stored? && stored[0].task == id)
    requires h' == h + ([looked, Replied(id, frame)] + stored)
    ensures |h| <= |h'| && SentBy(h'[|h|..], id) == frame
    ensures StoresIn(h'[|h|..], id) <==> stored != []
  {
    var events := [looked, Replied(id, frame)] + stored;
    EventsOf(h, events, id);
    if stored != [] {
      assert events[2] == stored[0] && stored[0] in events;
    }
  }

  // With the ports the task was given, one order of its answer's entries is enough.
  lemma ServesIs(c: Config, s0: State, id: nat, a: Announcement, tr: Trail, entries: seq<(Str, Endpoint)>, room: nat,
                 closes: bool, stamps: nat -> Time, after: Handler.View, r: Handler.Outcome)
    requires id < |s0.tasks| && |tr.free| == |a.peers| && Answer(c, s0, id, a, tr).0.Some?
    requires Enumerates(entries, Answer(c, s0, id, a, tr).0.value)
    requires Handler.ServesWith(a, entries, s0.tasks[id].from, room, closes, stamps, Answer(c, s0, id, a, tr).1,
                                Handler.View([], s0.records, s0.tables, s0.stats.relaysNeeded), after, r)
    ensures Handler.Serves(c, a, s0.tasks[id].from, room, closes, Source(tr.free, 0), stamps,
                           Handler.View([], s0.records, s0.tables, s0.stats.relaysNeeded), after, r)
  {
    SourceReads(tr.free, 0);
  }

  lemma NothingSent(h: seq<Event>, h': seq<Event>, id: nat, looked: Event)
    requires looked.Looked? && h' == h + [looked]
    ensures |h| <= |h'| && SentBy(h'[|h|..], id) == [] && !StoresIn(h'[|h|..], id)
  {
    EventsOf(h, [looked], id);
  }

  // The handler can look up and get nothing of the answer out.
  lemma ServesNothing(c: Config, s0: State, id: nat, a: Announcement, tr: Trail, after: Handler.View)
    requires id < |s0.tasks| && |tr.free| == |a.peers| && Answer(c, s0, id, a, tr).0.Some?
    requires after == Handler.View([], s0.records, Answer(c, s0, id, a, tr).1, s0.stats.relaysNeeded)
    ensures Handler.Serves(c, a, s0.tasks[id].from, 0, true, Source(tr.free, 0), Source([], 0),
                           Handler.View([], s0.records, s0.tables, s0.stats.relaysNeeded), after, Handler.Failed)
  {
    var entries := HasEnumeration(Answer(c, s0, id, a, tr).0.value);
    NothingGoesOut(entries);
    assert [] + Handler.Sent(entries, 0) == [];
    ServesIs(c, s0, id, a, tr, entries, 0, true, Source([], 0), after, Handler.Failed);
  }

  lemma UnsentIsAllowed(c: Config, request: Request, s0: State, s: State, id: nat, tr: Trail)
    requires id < |s0.tasks| && Over(c, request, s0, s, id, tr) && tr.end == Unsent
    ensures |s0.history| <= |s.history| && HandlerAllows(c, request, s0, s, id)
  {
    var a := request.a;
    NothingSent(s0.history, s.history, id, LookedEvent(c, s0, id, a, tr));
    ServesNothing(c, s0, id, a, tr, Handler.View([], s.records, s.tables, s.stats.relaysNeeded));
    assert Explains(c, request, s0, s, id, 0, true, Source(tr.free, 0), Source([], 0), Handler.Failed);
  }

  lemma UnstoredIsAllowed(c: Config, request: Request, s0: State, s: State, id: nat, tr: Trail)
    requires id < |s0.tasks| && Over(c, request, s0, s, id, tr) && tr.end == Unstored
    ensures |s0.history| <= |s.history| && HandlerAllows(c, request, s0, s, id)
  {
    var a, from, frame := request.a, s0.tasks[id].from, ResponseFrame(tr.entries);
    var t := Answer(c, s0, id, a, tr).1;
    var after := Handler.View(frame, s.records, s.tables, s.stats.relaysNeeded);
    SentIs(s0.history, s.history, id, LookedEvent(c, s0, id, a, tr), frame, []);
    AllGoesOut(a, tr.entries, from, false, Source([], 0), t,
        Handler.View([], s0.records, s0.tables, s0.stats.relaysNeeded),
               after, Handler.Failed);
    ServesIs(c, s0, id, a, tr, tr.entries, |frame|, false, Source([], 0), after, Handler.Failed);
    assert Explains(c, request, s0, s, id, |frame|, false, Source(tr.free, 0), Source([], 0), Handler.Failed);
  }

  lemma StoreIsAllowed(c: Config, request: Request, s0: State, s: State, id: nat, tr: Trail)
    requires id < |s0.tasks| && Over(c, request, s0, s, id, tr) && tr.end == End.Stored
    ensures |s0.history| <= |s.history| && HandlerAllows(c, request, s0, s, id)
  {
    var a, from, frame := request.a, s0.tasks[id].from, ResponseFrame(tr.entries);
    var t := Answer(c, s0, id, a, tr).1;
    var after := Handler.View(frame, s.records, s.tables, s.stats.relaysNeeded);
    SentIs(s0.history, s.history, id, LookedEvent(c, s0, id, a, tr), frame, [Event.Stored(id, a, from.v4, tr.stamps)]);
    SourceReads(tr.stamps, 0);
    AllGoesOut(a, tr.entries, from, true, Source(tr.stamps, 0), t,
               Handler.View([], s0.records, s0.tables, s0.stats.relaysNeeded), after, Handler.Finished);
    ServesIs(c, s0, id, a, tr, tr.entries, |frame|, true, Source(tr.stamps, 0), after, Handler.Finished);
    assert Explains(c, request, s0, s, id, |frame|, true, Source(tr.free, 0), Source(tr.stamps, 0), Handler.Finished);
  }

  lemma EndIsAllowed(c: Config, request: Request, s0: State, s: State, id: nat, tr: Trail)
    requires id < |s0.tasks| && Over(c, request, s0, s, id, tr) && tr.end != TlsFailed
    ensures |s0.history| <= |s.history| && HandlerAllows(c, request, s0, s, id)
  {
    match tr.end
    case Refused => RefusalIsAllowed(c, request, s0, s, id, tr);
    case Panicked => PanicIsAllowed(c, request, s0, s, id, tr);
    case Unsent => UnsentIsAllowed(c, request, s0, s, id, tr);
    case Unstored => UnstoredIsAllowed(c, request, s0, s, id, tr);
    case Stored => StoreIsAllowed(c, request, s0, s, id, tr);
  }

  // Whichever steps one connection takes while no other task moves: when it is over, the other
  // tasks are where they were. If its TLS handshake failed, and only then, that is counted and is all;
  // otherwise the handler allows what was sent and what became of the directory, the relays and the
  // counter.
  lemma EveryPathServes(c: Config, run: seq<State>, steps: seq<Step>, id: nat)
    requires IsPath(c, run, steps) && Solo(steps, id)
    requires id < |run[0].tasks| && run[0].tasks[id].pc == Accepting
    requires |run[|steps|].tasks| == |run[0].tasks| && run[|steps|].tasks[id].pc == Done
    ensures var s0, s := run[0], run[|steps|];
            && s.tasks == s0.tasks[id := s0.tasks[id].(pc := Done)]
            && |s0.history| <= |s.history|
            && (OnlyCountsTls(s0, s) <==> Handshake(id, false) in steps)
            && (Handshake(id, false) !in steps ==>
                  HandlerAllows(c, ParseRequest(s0.tasks[id].input), s0, s, id))
  {
    var s0, s := run[0], run[|steps|];
    var request := ParseRequest(s0.tasks[id].input);
    PathKeepsPhase(c, request, run, steps, id);
    var tr: Trail :| PhaseAt(c, request, run, steps, id)(|steps|, tr);
    assert steps[..|steps|] == steps;
    if tr.end != TlsFailed {
      EndIsAllowed(c, request, s0, s, id, tr);
    }
  }

}
