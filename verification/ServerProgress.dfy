// Deadlock freedom of the server. Steps that need neither the network nor the passing of time
// are the lock steps: granting a lock and finishing a critical section.
module ServerProgress {
  import opened Wrappers
  import opened Peering
  import opened FairLock
  import opened Server

  predicate LockStep(step: Step) {
    step.Grant? || step.Look? || step.Store? || step.Count? || step.CountTls? || step.Sweep? || step.Status?
  }

  // Waits for or holds some lock.
  predicate Engaged(pc: Pc) {
    UseOf(pc, StorageLock) != Idle || UseOf(pc, RelayLock) != Idle || UseOf(pc, StatsLock) != Idle
  }

  predicate WaitsForNothing(pc: Pc) {
    !UseOf(pc, StorageLock).Waiting? && !UseOf(pc, RelayLock).Waiting? && !UseOf(pc, StatsLock).Waiting?
  }

  // A task in a critical section that waits for nothing can finish it.
  lemma CriticalSectionEnds(s: State, id: nat) returns (step: Step)
    requires id < |s.tasks| && Engaged(s.tasks[id].pc) && WaitsForNothing(s.tasks[id].pc)
    ensures LockStep(step) && Enabled(s, step)
  {
    var pc := s.tasks[id].pc;
    match pc {
      case LookupHold(a) => step := Look(id, seq(|a.peers|, _ => 1024));
      case StoreHold(a, ip) => step := Store(id, seq(|a.peers|, _ => s.clock));
      case CountHold => step := Count(id);
      case TlsFailedHold => step := CountTls(id);
      case SweepHold(_) => step := Sweep(id);
      case _ => step := Status(id, true);
    }
  }

  // A lock that someone waits for and nobody holds is granted to the head of its queue.
  lemma FreeLockIsGranted(s: State, l: LockId, waiter: nat) returns (step: Step)
    requires LocksAgree(s)
    requires waiter < |s.tasks| && UseOf(s.tasks[waiter].pc, l).Waiting?
    requires forall id: nat :: id < |s.tasks| ==> !UseOf(s.tasks[id].pc, l).Holding?
    ensures LockStep(step) && Enabled(s, step)
  {
    var k, u := s.locks.Of(l), Uses(s, l);
    assert Agrees(k, u);
    assert (waiter, u[waiter].mode) in k.queue;
    var head := k.queue[0];
    assert (head.0, head.1) in k.queue;
    assert forall id: nat :: k.writer != Some(id) && id !in k.readers;
    step := Grant(head.0, l);
  }

  // Only the lookup holds one lock while it waits for another, and it always takes the storage
  // before the relays: so whenever any task waits for or holds a lock, some lock step can be
  // taken, whatever the network and the clock do.
  lemma DeadlockFree(s: State, busy: nat) returns (step: Step)
    requires LocksAgree(s) && busy < |s.tasks| && Engaged(s.tasks[busy].pc)
    ensures LockStep(step) && Enabled(s, step)
  {
    if id: nat :| id < |s.tasks| && Engaged(s.tasks[id].pc) && WaitsForNothing(s.tasks[id].pc) {
      step := CriticalSectionEnds(s, id);
    } else if id: nat :| id < |s.tasks| && UseOf(s.tasks[id].pc, RelayLock).Waiting? {
      step := FreeLockIsGranted(s, RelayLock, id);
    } else if id: nat :| id < |s.tasks| && UseOf(s.tasks[id].pc, StatsLock).Waiting? {
      step := FreeLockIsGranted(s, StatsLock, id);
    } else {
      step := FreeLockIsGranted(s, StorageLock, busy);
    }
  }

  // The same for every state of every run.
  lemma RunsAreDeadlockFree(c: Config, run: seq<State>, steps: seq<Step>, i: nat)
    requires IsRun(c, run, steps) && i < |run|
    ensures (exists id :: 0 <= id < |run[i].tasks| && Engaged(run[i].tasks[id].pc)) ==>
              exists step :: LockStep(step) && Enabled(run[i], step)
  {
    LocksAlwaysAgree(c, run, steps);
    if id :| 0 <= id < |run[i].tasks| && Engaged(run[i].tasks[id].pc) {
      var step := DeadlockFree(run[i], id);
    }
  }

  // ---------- Lock steps run out ----------

  // How many lock steps a task can take before it needs the network or a timer again.
  function Rank(pc: Pc): nat {
    match pc
    case LookupWait(_) => 3
    case RelayWait(_) => 2
    case LookupHold(_) => 1
    case StoreWait(_, _) => 4
    case StoreHold(_, _) => 3
    case CountWait => 2
    case CountHold => 1
    case TlsFailedWait => 2
    case TlsFailedHold => 1
    case SweepWait(_) => 2
    case SweepHold(_) => 1
    case StatusStorageWait => 6
    case StatusStorageHold => 5
    case StatusRelayWait => 4
    case StatusRelayHold => 3
    case StatusStatsWait => 2
    case StatusStatsHold => 1
    case _ => 0
  }

  function TotalRank(tasks: seq<Task>): nat {
    if tasks == [] then 0 else Rank(tasks[0].pc) + TotalRank(tasks[1..])
  }

  lemma {:induction false} RankOfUpdate(tasks: seq<Task>, id: nat, t: Task)
    requires id < |tasks|
    ensures TotalRank(tasks[id := t]) == TotalRank(tasks) - Rank(tasks[id].pc) + Rank(t.pc)
  {
    if id > 0 {
      RankOfUpdate(tasks[1..], id - 1, t);
      assert tasks[id := t][1..] == tasks[1..][id - 1 := t];
    } else {
      assert tasks[id := t][1..] == tasks[1..];
    }
  }

  lemma NextLowersRank(c: Config, s: State, step: Step)
    requires LockStep(step) && Enabled(s, step)
    ensures Rank(Next(c, s, step)) < Rank(s.tasks[step.id].pc)
  {
  }

  lemma LockStepLowersRank(c: Config, s: State, step: Step)
    requires LockStep(step) && Enabled(s, step)
    ensures TotalRank(Apply(c, s, step).tasks) < TotalRank(s.tasks)
  {
    NextLowersRank(c, s, step);
    RankOfUpdate(s.tasks, step.id, s.tasks[step.id].(pc := Next(c, s, step)));
  }

  // From any state on, without the network and without timers, at most TotalRank steps are
  // taken: with deadlock freedom, every waiting task is served.
  lemma {:induction false} LockStepsRunOut(c: Config, run: seq<State>, steps: seq<Step>)
    requires IsPath(c, run, steps) && forall i :: 0 <= i < |steps| ==> LockStep(steps[i])
    ensures |steps| + TotalRank(run[|steps|].tasks) <= TotalRank(run[0].tasks)
  {
    if steps != [] {
      assert Follows(c, run[0], steps[0], run[1]);
      LockStepLowersRank(c, run[0], steps[0]);
      forall i | 0 <= i < |steps[1..]| ensures Follows(c, run[1..][i], steps[1..][i], run[1..][i + 1]) {
        assert Follows(c, run[i + 1], steps[i + 1], run[i + 2]);
      }
      LockStepsRunOut(c, run[1..], steps[1..]);
    }
  }

  lemma Prepend(c: Config, s: State, step: Step, run: seq<State>, steps: seq<Step>)
    requires IsPath(c, run, steps) && Follows(c, s, step, run[0])
    ensures IsPath(c, [s] + run, [step] + steps)
  {
  }

  // So there is a way to quiescence: lock steps after which no task waits for or holds a lock.
  lemma {:induction false} Drains(c: Config, s: State) returns (run: seq<State>, steps: seq<Step>)
    requires LocksAgree(s)
    ensures IsPath(c, run, steps) && run[0] == s && |steps| <= TotalRank(s.tasks)
    ensures forall i :: 0 <= i < |steps| ==> LockStep(steps[i])
    ensures forall id :: 0 <= id < |run[|steps|].tasks| ==> !Engaged(run[|steps|].tasks[id].pc)
    decreases TotalRank(s.tasks)
  {
    if id: nat :| id < |s.tasks| && Engaged(s.tasks[id].pc) {
      var step := DeadlockFree(s, id);
      var s' := Apply(c, s, step);
      StepKeepsLocks(c, s, step);
      LockStepLowersRank(c, s, step);
      var run', steps' := Drains(c, s');
      Prepend(c, s, step, run', steps');
      run, steps := [s] + run', [step] + steps';
    } else {
      run, steps := [s], [];
    }
  }

}
