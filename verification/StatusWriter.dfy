// The status writer: every report takes the three locks one after the other, in the same order.
module StatusWriter {
  import opened Peering
  import opened Server
  import opened Counters

  function IsGrant(id: nat, l: LockId): Step -> bool {
    (step: Step) => step == Grant(id, l)
  }

  // How often lock l was granted to task id.
  function GrantsTo(steps: seq<Step>, id: nat, l: LockId): nat { Number(steps, IsGrant(id, l)) }

  // How far the three counts are apart at each program point of the writer.
  predicate Balanced(pc: Pc, storage: nat, relay: nat, stats: nat) {
    match pc
    case StatusSleep => storage == relay == stats
    case StatusStorageWait => storage == relay == stats
    case StatusStorageHold => storage == relay + 1 && relay == stats
    case StatusRelayWait => storage == relay + 1 && relay == stats
    case StatusRelayHold => storage == relay == stats + 1
    case StatusStatsWait => storage == relay == stats + 1
    case StatusStatsHold => storage == relay == stats
    case Done => storage >= relay >= stats >= storage - 1
    case _ => false
  }

  ghost predicate Reports(s: State, steps: seq<Step>, id: nat) {
    && id < |s.tasks|
    && Balanced(s.tasks[id].pc, GrantsTo(steps, id, StorageLock), GrantsTo(steps, id, RelayLock),
                GrantsTo(steps, id, StatsLock))
  }

  lemma NextBalances(c: Config, s: State, step: Step, storage: nat, relay: nat, stats: nat)
    requires Enabled(s, step) && !step.Tick? && !step.Spawn?
    requires Balanced(s.tasks[step.id].pc, storage, relay, stats)
    ensures Balanced(Next(c, s, step), storage + One(step == Grant(step.id, StorageLock)),
                     relay + One(step == Grant(step.id, RelayLock)), stats + One(step == Grant(step.id, StatsLock)))
  {
  }

  lemma StepKeepsReports(c: Config, s: State, steps: seq<Step>, step: Step, id: nat)
    requires Enabled(s, step) && Reports(s, steps, id)
    ensures Reports(Apply(c, s, step), steps + [step], id)
  {
    NumberAppend(steps, step, IsGrant(id, StorageLock));
    NumberAppend(steps, step, IsGrant(id, RelayLock));
    NumberAppend(steps, step, IsGrant(id, StatsLock));
    if !step.Tick? && !step.Spawn? && step.id == id {
      NextBalances(c, s, step, GrantsTo(steps, id, StorageLock), GrantsTo(steps, id, RelayLock),
                   GrantsTo(steps, id, StatsLock));
    }
  }

  lemma {:induction false} RunsKeepReports(c: Config, run: seq<State>, steps: seq<Step>, n: nat)
    requires IsRun(c, run, steps) && n <= |steps| && |run[0].tasks| == 2
    ensures Reports(run[n], steps[..n], 1)
  {
    if n == 0 {
      assert steps[..n] == [];
    } else {
      RunsKeepReports(c, run, steps, n - 1);
      assert Follows(c, run[n - 1], steps[n - 1], run[n - 1 + 1]);
      StepKeepsReports(c, run[n - 1], steps[..n - 1], steps[n - 1], 1);
      assert steps[..n] == steps[..n - 1] + [steps[n - 1]];
    }
  }

  // At every point of every run with a status writer: it has been granted the storage as often as the
  // relay tables and the counters, or is on its way through them: no report leaves one out, and the
  // storage comes first and the counters last.
  lemma ReportsReadAll(c: Config, run: seq<State>, steps: seq<Step>, n: nat)
    requires IsRun(c, run, steps) && n <= |steps| && |run[0].tasks| == 2
    ensures var storage, relay := GrantsTo(steps[..n], 1, StorageLock), GrantsTo(steps[..n], 1, RelayLock);
            var stats := GrantsTo(steps[..n], 1, StatsLock);
            storage >= relay >= stats >= storage - 1
    ensures |run[n].tasks| >= 2 && (run[n].tasks[1].pc == StatusSleep ==>
              GrantsTo(steps[..n], 1, StorageLock) == GrantsTo(steps[..n], 1, RelayLock)
           == GrantsTo(steps[..n], 1, StatsLock))
  {
    RunsKeepReports(c, run, steps, n);
  }

}
