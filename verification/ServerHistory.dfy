// What every run of the server keeps true of its history and its directory.
module ServerHistory {
  import opened Net
  import opened Text
  import opened Protocol
  import opened Postcard
  import opened Wire
  import opened Peering
  import opened History
  import opened Server

  // ---------- Faithful histories ----------

  predicate By(e: Event, id: nat) { !e.Swept? && e.task == id }

  ghost predicate Silent(h: seq<Event>, id: nat) {
    forall e :: e in h ==> !By(e, id)
  }

  ghost predicate NoReply(h: seq<Event>, id: nat) {
    forall e :: e in h && By(e, id) ==> !e.Replied?
  }

  ghost predicate NoStore(h: seq<Event>, id: nat) {
    forall e :: e in h && By(e, id) ==> !e.Stored?
  }

  ghost predicate HasLooked(h: seq<Event>, id: nat, a: Announcement, from: IpAddr) {
    exists answer :: Looked(id, a, from, answer) in h
  }

  ghost predicate HasReplied(h: seq<Event>, id: nat) {
    exists frame :: Replied(id, frame) in h
  }

  // frame carries an answer that the task's lookup gave, in some order of its entries.
  ghost predicate FramesAnswer(h: seq<Event>, id: nat, frame: Bytes) {
    exists a, from, answer, entries ::
      && Looked(id, a, from, answer) in h && Enumerates(entries, answer) && |EncResponse(entries)| < 0x1_0000_0000
      && frame == ResponseFrame(entries)
  }

  // What the past p says of the next event: each task looks up once, in the directory as it is
  // then; replies at most once, with what it looked up; and stores at most once, after both,
  // and only for a valid announcement from an IPv4 address.
  ghost predicate GoodEvent(relayOn: bool, p: seq<Event>, e: Event) {
    match e
    case Looked(id, a, from, answer) =>
      && Silent(p, id) && Valid(a) && Stamped(p) && AnswersAll(relayOn, answer, a, from, Replay(p))
    case Replied(id, frame) => NoReply(p, id) && NoStore(p, id) && FramesAnswer(p, id, frame)
    case Stored(id, a, ip, stamps) =>
      && |stamps| == |a.peers| && Valid(a)
      && NoStore(p, id) && HasLooked(p, id, a, V4(ip)) && HasReplied(p, id)
    case Swept(_) => true
  }

  ghost predicate Faithful(relayOn: bool, h: seq<Event>)
    ensures Faithful(relayOn, h) ==> Stamped(h)
  {
    h == [] || (Faithful(relayOn, h[..|h| - 1]) && GoodEvent(relayOn, h[..|h| - 1], h[|h| - 1]))
  }

  lemma {:induction false} FaithfulAt(relayOn: bool, h: seq<Event>, p: nat)
    requires Faithful(relayOn, h) && p < |h|
    ensures Faithful(relayOn, h[..p]) && GoodEvent(relayOn, h[..p], h[p])
  {
    var n := |h| - 1;
    if p < n {
      FaithfulAt(relayOn, h[..n], p);
      assert h[..n][..p] == h[..p];
    }
  }

  lemma FaithfulExtends(relayOn: bool, h: seq<Event>, e: Event)
    requires Faithful(relayOn, h) && GoodEvent(relayOn, h, e)
    ensures Faithful(relayOn, h + [e])
    ensures Replay(h + [e]) == match e
                               case Stored(_, a, ip, stamps) => StoreAll(Replay(h), a, ip, stamps)
                               case Swept(now) => SweepAll(Replay(h), now)
                               case _ => Replay(h)
  {
  }

  // ---------- The invariant ----------

  // What the history says of a task at its program point.
  ghost predicate TaskAgrees(h: seq<Event>, id: nat, t: Task) {
    match t.pc
    case Done => true
    case CountWait => true
    case CountHold => true
    case LookupWait(a) => Silent(h, id) && ParseRequest(t.input) == Accepted(a)
    case RelayWait(a) => Silent(h, id) && ParseRequest(t.input) == Accepted(a)
    case LookupHold(a) => Silent(h, id) && ParseRequest(t.input) == Accepted(a)
    case Replying(a, answer) =>
      NoReply(h, id) && NoStore(h, id) && Looked(id, a, t.from, answer) in h && ParseRequest(t.input) == Accepted(a)
    case StoreWait(a, ip) => NoStore(h, id) && HasReplied(h, id) && HasLooked(h, id, a, V4(ip)) && Valid(a)
    case StoreHold(a, ip) => NoStore(h, id) && HasReplied(h, id) && HasLooked(h, id, a, V4(ip)) && Valid(a)
    case _ => Silent(h, id)
  }

  ghost predicate Inv(c: Config, s: State) {
    && Faithful(c.relayOn, s.history)
    && s.records == Replay(s.history)
    && (forall id: nat :: id < |s.tasks| ==> TaskAgrees(s.history, id, s.tasks[id]))
    && (forall id: nat :: id >= |s.tasks| ==> Silent(s.history, id))
    && (forall e :: e in s.history && e.Looked? ==>
          && e.task < |s.tasks| && s.tasks[e.task].from == e.from
          && ParseRequest(s.tasks[e.task].input) == Accepted(e.ann))
  }

  lemma ParsedIsValid(input: Bytes)
    ensures ParseRequest(input).Accepted? ==> Valid(ParseRequest(input).a)
  {
  }

  // An event of one task leaves what the history says of every other task.
  lemma OthersAgree(h: seq<Event>, e: Event, id: nat, t: Task)
    requires TaskAgrees(h, id, t) && !By(e, id)
    ensures TaskAgrees(h + [e], id, t)
  {
  }

  lemma StillSilent(h: seq<Event>, e: Event, id: nat)
    requires Silent(h, id) && !By(e, id)
    ensures Silent(h + [e], id)
  {
  }

  // A step that adds no event and does not touch the directory.
  lemma QuietMoveKeepsInv(c: Config, s: State, id: nat, pc: Pc, s': State)
    requires Inv(c, s) && id < |s.tasks|
    requires TaskAgrees(s.history, id, s.tasks[id].(pc := pc))
    requires s'.tasks == s.tasks[id := s.tasks[id].(pc := pc)] && s'.history == s.history && s'.records == s.records
    ensures Inv(c, s')
  {
  }

  lemma AllAgree(s: State, s': State, id: nat, e: Event)
    requires id < |s.tasks| == |s'.tasks| && (e.Swept? || e.task == id) && s'.history == s.history + [e]
    requires forall i: nat :: i < |s.tasks| && i != id ==> s'.tasks[i] == s.tasks[i]
    requires TaskAgrees(s'.history, id, s'.tasks[id])
    requires forall i: nat :: i < |s.tasks| ==> TaskAgrees(s.history, i, s.tasks[i])
    ensures forall i: nat :: i < |s'.tasks| ==> TaskAgrees(s'.history, i, s'.tasks[i])
  {
    forall i: nat | i < |s'.tasks| ensures TaskAgrees(s'.history, i, s'.tasks[i]) {
      if i != id {
        OthersAgree(s.history, e, i, s.tasks[i]);
      }
    }
  }

  // A step of task id that adds its event e.
  lemma EventKeepsInv(c: Config, s: State, id: nat, pc: Pc, e: Event, s': State)
    requires Inv(c, s) && id < |s.tasks|
    requires e.Swept? || e.task == id
    requires GoodEvent(c.relayOn, s.history, e)
    requires TaskAgrees(s.history + [e], id, s.tasks[id].(pc := pc))
    requires s'.tasks == s.tasks[id := s.tasks[id].(pc := pc)] && s'.history == s.history + [e]
    requires e.Looked? ==> s.tasks[id].from == e.from && ParseRequest(s.tasks[id].input) == Accepted(e.ann)
    requires s'.records == match e
                           case Stored(_, a, ip, stamps) => StoreAll(s.records, a, ip, stamps)
                           case Swept(now) => SweepAll(s.records, now)
                           case _ => s.records
    ensures Inv(c, s')
  {
    FaithfulExtends(c.relayOn, s.history, e);
    AllAgree(s, s', id, e);
    forall i: nat | i >= |s'.tasks| ensures Silent(s'.history, i) {
      StillSilent(s.history, e, i);
    }
  }

  lemma LookKeepsInv(c: Config, s: State, id: nat, free: seq<uint16>)
    requires Inv(c, s) && Enabled(s, Look(id, free))
    ensures Inv(c, Apply(c, s, Look(id, free)))
  {
    var t := s.tasks[id];
    var s' := Apply(c, s, Look(id, free));
    LookupAnswers(c, t.pc.a, t.from, s.records, s.tables, free);
    ParsedIsValid(t.input);
    var m := LookupAll(c, t.pc.a, t.from, s.records, s.tables, free).0;
    assert TaskAgrees(s.history, id, t);
    if m.None? {
      QuietMoveKeepsInv(c, s, id, Done, s');
    } else {
      EventKeepsInv(c, s, id, Replying(t.pc.a, m.value), Looked(id, t.pc.a, t.from, m.value), s');
    }
  }

  // The reply carries what the task looked up, and the task then stores or is done.
  lemma ReplyIsGood(relayOn: bool, h: seq<Event>, id: nat, t: Task, entries: seq<(Str, Endpoint)>, closed: bool)
    requires TaskAgrees(h, id, t) && t.pc.Replying?
    requires Enumerates(entries, t.pc.answer) && |EncResponse(entries)| < 0x1_0000_0000
    ensures GoodEvent(relayOn, h, Replied(id, ResponseFrame(entries)))
    ensures closed && t.from.V4? ==>
              TaskAgrees(h + [Replied(id, ResponseFrame(entries))], id, t.(pc := StoreWait(t.pc.a, t.from.v4)))
  {
    var e := Replied(id, ResponseFrame(entries));
    assert e in h + [e];
    assert Looked(id, t.pc.a, t.from, t.pc.answer) in h + [e];
    ParsedIsValid(t.input);
  }

  lemma ReplyKeepsInv(c: Config, s: State, id: nat, entries: seq<(Str, Endpoint)>, written: bool, closed: bool)
    requires Inv(c, s) && Enabled(s, Reply(id, entries, written, closed))
    ensures Inv(c, Apply(c, s, Reply(id, entries, written, closed)))
  {
    var t := s.tasks[id];
    var s' := Apply(c, s, Reply(id, entries, written, closed));
    assert TaskAgrees(s.history, id, t);
    if written {
      ReplyIsGood(c.relayOn, s.history, id, t, entries, closed);
      EventKeepsInv(c, s, id, s'.tasks[id].pc, Replied(id, ResponseFrame(entries)), s');
    } else {
      QuietMoveKeepsInv(c, s, id, Done, s');
    }
  }

  lemma StoreKeepsInv(c: Config, s: State, id: nat, stamps: seq<Time>)
    requires Inv(c, s) && Enabled(s, Store(id, stamps))
    ensures Inv(c, Apply(c, s, Store(id, stamps)))
  {
    var t := s.tasks[id];
    var s' := Apply(c, s, Store(id, stamps));
    assert TaskAgrees(s.history, id, t);
    EventKeepsInv(c, s, id, s'.tasks[id].pc, Stored(id, t.pc.a, t.pc.ip, stamps), s');
  }

  lemma SweepKeepsInv(c: Config, s: State, id: nat)
    requires Inv(c, s) && Enabled(s, Sweep(id))
    ensures Inv(c, Apply(c, s, Sweep(id)))
  {
    var t := s.tasks[id];
    assert TaskAgrees(s.history, id, t);
    EventKeepsInv(c, s, id, SweepSleep, Swept(t.pc.now), Apply(c, s, Sweep(id)));
  }

  predicate Eventful(step: Step) {
    step.Look? || step.Reply? || step.Store? || step.Sweep?
  }

  lemma ParseAgrees(h: seq<Event>, id: nat, t: Task)
    requires TaskAgrees(h, id, t) && t.pc.Reading? && ParseRequest(t.input).Accepted?
    ensures TaskAgrees(h, id, t.(pc := LookupWait(ParseRequest(t.input).a)))
  {
  }

  lemma QuietNextAgrees(c: Config, s: State, step: Step)
    requires Enabled(s, step) && !Eventful(step) && !step.Tick? && !step.Spawn?
    requires TaskAgrees(s.history, step.id, s.tasks[step.id])
    ensures TaskAgrees(s.history, step.id, s.tasks[step.id].(pc := Next(c, s, step)))
  {
    if step.Parse? && ParseRequest(s.tasks[step.id].input).Accepted? {
      ParseAgrees(s.history, step.id, s.tasks[step.id]);
    }
  }

  lemma QuietStepKeepsInv(c: Config, s: State, step: Step)
    requires Inv(c, s) && Enabled(s, step) && !Eventful(step) && !step.Tick? && !step.Spawn?
    ensures Inv(c, Apply(c, s, step))
  {
    assert TaskAgrees(s.history, step.id, s.tasks[step.id]);
    QuietNextAgrees(c, s, step);
    QuietMoveKeepsInv(c, s, step.id, Next(c, s, step), Apply(c, s, step));
  }

  lemma StepKeepsInv(c: Config, s: State, step: Step)
    requires Inv(c, s) && Enabled(s, step)
    ensures Inv(c, Apply(c, s, step))
  {
    match step
    case Tick(_) =>
    case Spawn(_, _) =>
    case Look(id, free) => LookKeepsInv(c, s, id, free);
    case Reply(id, entries, written, closed) => ReplyKeepsInv(c, s, id, entries, written, closed);
    case Store(id, stamps) => StoreKeepsInv(c, s, id, stamps);
    case Sweep(id) => SweepKeepsInv(c, s, id);
    case _ => QuietStepKeepsInv(c, s, step);
  }

  lemma {:induction false} RunsKeepInv(c: Config, run: seq<State>, steps: seq<Step>)
    requires IsRun(c, run, steps)
    ensures forall i :: 0 <= i < |run| ==> Inv(c, run[i])
    decreases |steps|
  {
    if steps != [] {
      var n := |steps| - 1;
      RunsKeepInv(c, run[..n + 1], steps[..n]);
      assert run[..n + 1][n] == run[n] && Follows(c, run[n], steps[n], run[n + 1]);
      StepKeepsInv(c, run[n], steps[n]);
      forall i | 0 <= i < |run| ensures Inv(c, run[i]) {
        if i <= n { assert run[..n + 1][i] == run[i]; }
      }
    }
  }

}
