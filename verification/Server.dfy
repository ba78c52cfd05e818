// The coordination server as a step machine. Tasks run concurrently: one per connection, the
// expiry sweeper and the status writer. A step ends where the program may be suspended: at a
// lock, at the network, or asleep.
module Server {
  import opened Wrappers
  import opened Net
  import opened Text
  import opened Protocol
  import opened Postcard
  import opened Wire
  import opened RelayPorts
  import opened Peering
  import opened History
  import opened FairLock

  // Where a task is. Wait: queued for a lock; Hold: in the critical section.
  datatype Pc =
    // a connection
    | Accepting
    | TlsFailedWait
    | TlsFailedHold
    | Reading
    | LookupWait(a: Announcement)
    | RelayWait(a: Announcement)
    | LookupHold(a: Announcement)
    | Replying(a: Announcement, answer: Response)
    | StoreWait(a: Announcement, ip: Ipv4Addr)
    | StoreHold(a: Announcement, ip: Ipv4Addr)
    | CountWait
    | CountHold
    // the sweeper
    | SweepSleep
    | SweepWait(now: Time)
    | SweepHold(now: Time)
    // the status writer
    | StatusSleep
    | StatusStorageWait
    | StatusStorageHold
    | StatusRelayWait
    | StatusRelayHold
    | StatusStatsWait
    | StatusStatsHold
    | Done

  datatype LockId = StorageLock | RelayLock | StatsLock

  function UseOf(pc: Pc, l: LockId): Use {
    match l
    case StorageLock =>
      (match pc
       case LookupWait(_) => Waiting(Shared)
       case RelayWait(_) => Holding(Shared)
       case LookupHold(_) => Holding(Shared)
       case StoreWait(_, _) => Waiting(Exclusive)
       case StoreHold(_, _) => Holding(Exclusive)
       case SweepWait(_) => Waiting(Exclusive)
       case SweepHold(_) => Holding(Exclusive)
       case StatusStorageWait => Waiting(Shared)
       case StatusStorageHold => Holding(Shared)
       case _ => Idle)
    case RelayLock =>
      (match pc
       case RelayWait(_) => Waiting(Exclusive)
       case LookupHold(_) => Holding(Exclusive)
       case StatusRelayWait => Waiting(Shared)
       case StatusRelayHold => Holding(Shared)
       case _ => Idle)
    case StatsLock =>
      (match pc
       case TlsFailedWait => Waiting(Exclusive)
       case TlsFailedHold => Holding(Exclusive)
       case CountWait => Waiting(Exclusive)
       case CountHold => Holding(Exclusive)
       case StatusStatsWait => Waiting(Shared)
       case StatusStatsHold => Holding(Shared)
       case _ => Idle)
  }

  // The point after the lock a task waits for is granted.
  function Granted(pc: Pc): Pc {
    match pc
    case TlsFailedWait => TlsFailedHold
    case LookupWait(a) => RelayWait(a)
    case RelayWait(a) => LookupHold(a)
    case StoreWait(a, ip) => StoreHold(a, ip)
    case CountWait => CountHold
    case SweepWait(now) => SweepHold(now)
    case StatusStorageWait => StatusStorageHold
    case StatusRelayWait => StatusRelayHold
    case StatusStatsWait => StatusStatsHold
    case _ => pc
  }

  // A connection's input is all the bytes that arrive on it before it ends.
  datatype Task = Task(pc: Pc, from: IpAddr, input: Bytes)

  datatype Stats = Stats(tlsErrors: nat, relaysNeeded: nat)

  datatype Locks = Locks(storage: Lock, relay: Lock, stats: Lock) {
    function Of(l: LockId): Lock {
      match l
      case StorageLock => storage
      case RelayLock => relay
      case StatsLock => stats
    }
  }

  // history is what the steps did; no step reads it.
  datatype State = State(
    clock: Time,
    records: Records,
    tables: Tables,
    stats: Stats,
    locks: Locks,
    tasks: seq<Task>,
    history: seq<Event>)

  datatype Step =
    | Tick(to: Time)
    | Spawn(from: IpAddr, input: Bytes)
    | Grant(id: nat, l: LockId)
    | Handshake(id: nat, ok: bool)
    | Parse(id: nat)
    | Look(id: nat, free: seq<uint16>)
    | Reply(id: nat, entries: seq<(Str, Endpoint)>, written: bool, closed: bool)
    | Store(id: nat, stamps: seq<Time>)
    | Count(id: nat)
    | CountTls(id: nat)
    | Wake(id: nat)
    | Sweep(id: nat)
    | Status(id: nat, ok: bool)

  ghost predicate Enabled(s: State, step: Step) {
    match step
    case Tick(_) => true
    case Spawn(_, _) => true
    case Grant(id, l) => id < |s.tasks| && UseOf(s.tasks[id].pc, l).Waiting? && CanGrant(s.locks.Of(l), id)
    case Handshake(id, _) => id < |s.tasks| && s.tasks[id].pc.Accepting?
    case Parse(id) => id < |s.tasks| && s.tasks[id].pc.Reading?
    case Look(id, free) => id < |s.tasks| && s.tasks[id].pc.LookupHold? && |free| == |s.tasks[id].pc.a.peers|
    case Reply(id, entries, written, _) =>
      && id < |s.tasks| && s.tasks[id].pc.Replying?
      && (written ==> Enumerates(entries, s.tasks[id].pc.answer) && |EncResponse(entries)| < 0x1_0000_0000)
    case Store(id, stamps) => id < |s.tasks| && s.tasks[id].pc.StoreHold? && |stamps| == |s.tasks[id].pc.a.peers|
    case Count(id) => id < |s.tasks| && s.tasks[id].pc.CountHold?
    case CountTls(id) => id < |s.tasks| && s.tasks[id].pc.TlsFailedHold?
    case Wake(id) => id < |s.tasks| && (s.tasks[id].pc.SweepSleep? || s.tasks[id].pc.StatusSleep?)
    case Sweep(id) => id < |s.tasks| && s.tasks[id].pc.SweepHold?
    case Status(id, _) =>
      && id < |s.tasks|
      && (s.tasks[id].pc.StatusStorageHold? || s.tasks[id].pc.StatusRelayHold? || s.tasks[id].pc.StatusStatsHold?)
  }

  // The task goes on to pc: it leaves and requests locks accordingly.
  function Move(s: State, id: nat, pc: Pc): State
    requires id < |s.tasks|
  {
    var was := s.tasks[id].pc;
    s.(tasks := s.tasks[id := s.tasks[id].(pc := pc)],
       locks := Locks(Change(s.locks.storage, id, UseOf(was, StorageLock), UseOf(pc, StorageLock)),
                      Change(s.locks.relay, id, UseOf(was, RelayLock), UseOf(pc, RelayLock)),
                      Change(s.locks.stats, id, UseOf(was, StatsLock), UseOf(pc, StatsLock))))
  }

  // Where a task's step takes it.
  ghost function Next(c: Config, s: State, step: Step): Pc
    requires Enabled(s, step) && !step.Tick? && !step.Spawn?
  {
    var t := s.tasks[step.id];
    match step
    case Grant(_, _) => Granted(t.pc)
    case Handshake(_, ok) => if ok then Reading else TlsFailedWait
    case Parse(_) => (match ParseRequest(t.input)
                      case Accepted(a) => LookupWait(a)
                      case _ => Done)
    case Look(_, free) =>
      var m := LookupAll(c, t.pc.a, t.from, s.records, s.tables, free).0;
      if m.None? then Done else Replying(t.pc.a, m.value)
    case Reply(_, _, written, closed) => if written && closed && t.from.V4? then StoreWait(t.pc.a, t.from.v4) else Done
    case Store(_, _) => if t.pc.a.needsRelay then CountWait else Done
    case Count(_) => Done
    case CountTls(_) => Done
    case Wake(_) => if t.pc.SweepSleep? then SweepWait(s.clock) else StatusStorageWait
    case Sweep(_) => SweepSleep
    case Status(_, ok) =>
      if !ok then Done
      else if t.pc.StatusStorageHold? then StatusRelayWait
      else if t.pc.StatusRelayHold? then StatusStatsWait
      else StatusSleep
  }

  // The event a step adds to the history, if any.
  ghost function EventOf(c: Config, s: State, step: Step): Option<Event>
    requires Enabled(s, step)
  {
    match step
    case Look(id, free) =>
      var t := s.tasks[id];
      var m := LookupAll(c, t.pc.a, t.from, s.records, s.tables, free).0;
      if m.None? then None else Some(Looked(id, t.pc.a, t.from, m.value))
    case Reply(id, entries, written, _) => if written then Some(Replied(id, ResponseFrame(entries))) else None
    case Store(id, stamps) => Some(Stored(id, s.tasks[id].pc.a, s.tasks[id].pc.ip, stamps))
    case Sweep(id) => Some(Swept(s.tasks[id].pc.now))
    case _ => None
  }

  // What a step does to the data.
  ghost function Effect(c: Config, s: State, step: Step): State
    requires Enabled(s, step)
  {
    match step
    case Tick(to) => s.(clock := to)
    case Look(id, free) =>
      s.(tables := LookupAll(c, s.tasks[id].pc.a, s.tasks[id].from, s.records, s.tables, free).1)
    case Store(id, stamps) =>
      s.(records := StoreAll(s.records, s.tasks[id].pc.a, s.tasks[id].pc.ip, stamps),
         clock := if stamps == [] then s.clock else stamps[|stamps| - 1])
    case Count(_) => s.(stats := s.stats.(relaysNeeded := s.stats.relaysNeeded + 1))
    case CountTls(_) => s.(stats := s.stats.(tlsErrors := s.stats.tlsErrors + 1))
    case Sweep(id) => s.(records := SweepAll(s.records, s.tasks[id].pc.now))
    case _ => s
  }

  ghost function Apply(c: Config, s: State, step: Step): State
    requires Enabled(s, step)
  {
    var e := EventOf(c, s, step);
    var s' := Effect(c, s, step).(history := if e.Some? then s.history + [e.value] else s.history);
    if step.Tick? then s'
    else if step.Spawn? then s'.(tasks := s.tasks + [Task(Accepting, step.from, step.input)])
    else Move(s', step.id, Next(c, s, step))
  }

  // The sweeper always runs; the status writer runs when asked for.
  predicate Initial(s: State) {
    && s.records == map[] && s.tables == Tables(map[], map[], map[]) && s.stats == Stats(0, 0)
    && s.locks == Locks(FREE, FREE, FREE)
    && s.history == []
    && |s.tasks| in {1, 2}
    && s.tasks[0].pc == SweepSleep
    && (|s.tasks| == 2 ==> s.tasks[1].pc == StatusSleep)
  }

  ghost predicate Follows(c: Config, s: State, step: Step, s': State) {
    Enabled(s, step) && s' == Apply(c, s, step)
  }

  // run[i] is the state before steps[i].
  ghost predicate IsPath(c: Config, run: seq<State>, steps: seq<Step>) {
    && |run| == |steps| + 1
    && forall i :: 0 <= i < |steps| ==> Follows(c, run[i], steps[i], run[i + 1])
  }

  ghost predicate IsRun(c: Config, run: seq<State>, steps: seq<Step>) {
    IsPath(c, run, steps) && Initial(run[0])
  }

  // ---------- Locks and program points agree ----------

  function Uses(s: State, l: LockId): (u: seq<Use>)
    ensures |u| == |s.tasks|
    ensures forall id :: 0 <= id < |u| ==> u[id] == UseOf(s.tasks[id].pc, l)
  {
    seq(|s.tasks|, id requires 0 <= id < |s.tasks| => UseOf(s.tasks[id].pc, l))
  }

  ghost predicate LocksAgree(s: State) {
    forall l: LockId :: Agrees(s.locks.Of(l), Uses(s, l))
  }

  lemma MoveKeepsLocks(s: State, id: nat, pc: Pc)
    requires LocksAgree(s) && id < |s.tasks|
    requires forall l: LockId :: Allowed(s.locks.Of(l), id, UseOf(s.tasks[id].pc, l), UseOf(pc, l))
    ensures LocksAgree(Move(s, id, pc))
  {
    var s' := Move(s, id, pc);
    forall l: LockId ensures Agrees(s'.locks.Of(l), Uses(s', l)) {
      ChangeKeepsAgreement(s.locks.Of(l), Uses(s, l), id, UseOf(pc, l));
      assert Uses(s', l) == Uses(s, l)[id := UseOf(pc, l)];
    }
  }

  lemma SameTasksAndLocks(s: State, s': State)
    requires LocksAgree(s) && s'.tasks == s.tasks && s'.locks == s.locks
    ensures LocksAgree(s')
  {
  }

  // The moves between program points that no lock is granted for.
  predicate Edge(pc: Pc, pc': Pc) {
    match pc
    case Accepting => pc'.Reading? || pc'.TlsFailedWait?
    case Reading => pc'.LookupWait? || pc'.Done?
    case LookupHold(_) => pc'.Replying? || pc'.Done?
    case Replying(_, _) => pc'.StoreWait? || pc'.Done?
    case StoreHold(_, _) => pc'.CountWait? || pc'.Done?
    case CountHold => pc'.Done?
    case TlsFailedHold => pc'.Done?
    case SweepSleep => pc'.SweepWait?
    case SweepHold(_) => pc'.SweepSleep?
    case StatusSleep => pc'.StatusStorageWait?
    case StatusStorageHold => pc'.StatusRelayWait? || pc'.Done?
    case StatusRelayHold => pc'.StatusStatsWait? || pc'.Done?
    case StatusStatsHold => pc'.StatusSleep? || pc'.Done?
    case _ => false
  }

  lemma NextIsEdge(c: Config, s: State, step: Step)
    requires Enabled(s, step) && !step.Tick? && !step.Spawn? && !step.Grant?
    ensures Edge(s.tasks[step.id].pc, Next(c, s, step))
  {
  }

  lemma EdgeIsAllowed(k: Lock, id: nat, pc: Pc, pc': Pc, l: LockId)
    requires Edge(pc, pc')
    ensures Allowed(k, id, UseOf(pc, l), UseOf(pc', l))
  {
  }

  lemma GrantIsAllowed(s: State, id: nat, l: LockId, other: LockId)
    requires Enabled(s, Grant(id, l))
    ensures var pc := s.tasks[id].pc; Allowed(s.locks.Of(other), id, UseOf(pc, other), UseOf(Granted(pc), other))
  {
  }

  // Program points move only along allowed uses of each lock.
  lemma NextIsAllowed(c: Config, s: State, step: Step, l: LockId)
    requires Enabled(s, step) && !step.Tick? && !step.Spawn?
    ensures Allowed(s.locks.Of(l), step.id, UseOf(s.tasks[step.id].pc, l), UseOf(Next(c, s, step), l))
  {
    if step.Grant? {
      GrantIsAllowed(s, step.id, step.l, l);
    } else {
      NextIsEdge(c, s, step);
      EdgeIsAllowed(s.locks.Of(l), step.id, s.tasks[step.id].pc, Next(c, s, step), l);
    }
  }

  lemma StepKeepsLocks(c: Config, s: State, step: Step)
    requires LocksAgree(s) && Enabled(s, step)
    ensures LocksAgree(Apply(c, s, step))
  {
    var s' := Apply(c, s, step);
    if step.Tick? {
      SameTasksAndLocks(s, s');
    } else if step.Spawn? {
      forall l: LockId ensures Agrees(s'.locks.Of(l), Uses(s', l)) {
        SpawnKeepsAgreement(s.locks.Of(l), Uses(s, l));
        assert Uses(s', l) == Uses(s, l) + [Idle];
      }
    } else {
      forall l: LockId ensures Allowed(s.locks.Of(l), step.id, UseOf(s.tasks[step.id].pc, l),
          UseOf(Next(c, s, step), l)) {
        NextIsAllowed(c, s, step, l);
      }
      MoveKeepsLocks(s, step.id, Next(c, s, step));
      SameTasksAndLocks(Move(s, step.id, Next(c, s, step)), s');
    }
  }

  // In every reachable state each lock's holders and waiters are the tasks at the matching
  // program points, and a writer is alone.
  lemma {:induction false} LocksAlwaysAgree(c: Config, run: seq<State>, steps: seq<Step>)
    requires IsRun(c, run, steps)
    ensures forall i :: 0 <= i < |run| ==> LocksAgree(run[i])
    decreases |steps|
  {
    if steps == [] {
      forall l: LockId ensures Agrees(run[0].locks.Of(l), Uses(run[0], l)) {}
    } else {
      var n := |steps| - 1;
      LocksAlwaysAgree(c, run[..n + 1], steps[..n]);
      assert run[..n + 1][n] == run[n] && Follows(c, run[n], steps[n], run[n + 1]);
      StepKeepsLocks(c, run[n], steps[n]);
      forall i | 0 <= i < |run| ensures LocksAgree(run[i]) {
        if i <= n { assert run[..n + 1][i] == run[i]; }
      }
    }
  }

}
