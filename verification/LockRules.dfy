// What the three locks mean for the program points of the tasks.
module LockRules {
  import opened Wrappers
  import opened Peering
  import opened FairLock
  import opened Server

  predicate ReadsStorage(pc: Pc) { pc.RelayWait? || pc.LookupHold? || pc.StatusStorageHold? }
  predicate WritesStorage(pc: Pc) { pc.StoreHold? || pc.SweepHold? }
  predicate ReadsRelays(pc: Pc) { pc.StatusRelayHold? }
  predicate WritesRelays(pc: Pc) { pc.LookupHold? }
  predicate ReadsStats(pc: Pc) { pc.StatusStatsHold? }
  predicate WritesStats(pc: Pc) { pc.CountHold? || pc.TlsFailedHold? }

  // Two tasks must not be at these points together: one writes what the other reads or writes.
  predicate Conflict(p: Pc, q: Pc) {
    || (WritesStorage(p) && (ReadsStorage(q) || WritesStorage(q))) || (ReadsStorage(p) && WritesStorage(q))
    || (WritesRelays(p) && (ReadsRelays(q) || WritesRelays(q))) || (ReadsRelays(p) && WritesRelays(q))
    || (WritesStats(p) && (ReadsStats(q) || WritesStats(q))) || (ReadsStats(p) && WritesStats(q))
  }

  // What each lock is for.
  lemma UsesOfLocks(pc: Pc)
    ensures ReadsStorage(pc) <==> UseOf(pc, StorageLock) == Holding(Shared)
    ensures WritesStorage(pc) <==> UseOf(pc, StorageLock) == Holding(Exclusive)
    ensures ReadsRelays(pc) <==> UseOf(pc, RelayLock) == Holding(Shared)
    ensures WritesRelays(pc) <==> UseOf(pc, RelayLock) == Holding(Exclusive)
    ensures ReadsStats(pc) <==> UseOf(pc, StatsLock) == Holding(Shared)
    ensures WritesStats(pc) <==> UseOf(pc, StatsLock) == Holding(Exclusive)
  {
  }

  predicate Clash(u: Use, v: Use) {
    u.Holding? && v.Holding? && (u.mode.Exclusive? || v.mode.Exclusive?)
  }

  lemma ConflictIsClash(p: Pc, q: Pc)
    ensures Conflict(p, q) <==> exists l: LockId :: Clash(UseOf(p, l), UseOf(q, l))
  {
    UsesOfLocks(p);
    UsesOfLocks(q);
    assert Conflict(p, q) <==>
        || Clash(UseOf(p, StorageLock), UseOf(q, StorageLock))
        || Clash(UseOf(p, RelayLock), UseOf(q, RelayLock))
        || Clash(UseOf(p, StatsLock), UseOf(q, StatsLock));
  }

  lemma NoClash(k: Lock, u: seq<Use>, a: nat, b: nat)
    requires Agrees(k, u) && a < |u| && b < |u| && a != b
    ensures !Clash(u[a], u[b])
  {
    if u[a] == Holding(Exclusive) {
      assert k.writer == Some(a);
    } else if u[b] == Holding(Exclusive) {
      assert k.writer == Some(b);
    }
  }

  // At every point of every run, no two tasks are in conflict.
  lemma CriticalSectionsExclude(c: Config, run: seq<State>, steps: seq<Step>, i: nat, a: nat, b: nat)
    requires IsRun(c, run, steps) && i < |run| && a < |run[i].tasks| && b < |run[i].tasks| && a != b
    ensures !Conflict(run[i].tasks[a].pc, run[i].tasks[b].pc)
  {
    LocksAlwaysAgree(c, run, steps);
    var s := run[i];
    ConflictIsClash(s.tasks[a].pc, s.tasks[b].pc);
    forall l: LockId ensures !Clash(UseOf(s.tasks[a].pc, l), UseOf(s.tasks[b].pc, l)) {
      NoClash(s.locks.Of(l), Uses(s, l), a, b);
    }
  }

  // The lock that a task waits for at its program point, if any.
  function LockWaitedFor(pc: Pc): Option<LockId> {
    match pc
    case TlsFailedWait => Some(StatsLock)
    case LookupWait(_) => Some(StorageLock)
    case RelayWait(_) => Some(RelayLock)
    case StoreWait(_, _) => Some(StorageLock)
    case CountWait => Some(StatsLock)
    case SweepWait(_) => Some(StorageLock)
    case StatusStorageWait => Some(StorageLock)
    case StatusRelayWait => Some(RelayLock)
    case StatusStatsWait => Some(StatsLock)
    case _ => None
  }

  lemma WaitsForIt(pc: Pc, l: LockId)
    ensures UseOf(pc, l).Waiting? <==> LockWaitedFor(pc) == Some(l)
    ensures UseOf(pc, l).Waiting? ==> UseOf(Granted(pc), l) == Holding(UseOf(pc, l).mode)
  {
  }

  // For one lock: the request can be granted exactly when it is the first in the queue and nobody
  // holds the lock in a mode that clashes with it.
  lemma CanGrantIff(k: Lock, u: seq<Use>, id: nat)
    requires Agrees(k, u) && id < |u| && u[id].Waiting?
    ensures CanGrant(k, id) <==>
              && |k.queue| > 0 && k.queue[0].0 == id
              && forall x: nat :: x < |u| ==> !Clash(Holding(u[id].mode), u[x])
  {
    if |k.queue| > 0 && k.queue[0].0 == id {
      assert (id, k.queue[0].1) in k.queue;
      if k.writer.Some? {
        assert Clash(Holding(u[id].mode), u[k.writer.value]);
      } else if u[id].mode.Exclusive? && k.readers != {} {
        var x :| x in k.readers;
        assert Clash(Holding(u[id].mode), u[x]);
      }
      if x: nat :| x < |u| && Clash(Holding(u[id].mode), u[x]) {
        assert k.writer == Some(x) || x in k.readers;
      }
    }
  }

  // A lock is granted exactly to the task that waits for it and is first in its queue, as soon as
  // nobody is in conflict with the point after it.
  lemma GrantedIff(s: State, id: nat, l: LockId)
    requires LocksAgree(s) && id < |s.tasks|
    ensures Enabled(s, Grant(id, l)) <==>
              && LockWaitedFor(s.tasks[id].pc) == Some(l)
              && |s.locks.Of(l).queue| > 0 && s.locks.Of(l).queue[0].0 == id
              && forall x: nat :: x < |s.tasks| && x != id ==> !Conflict(Granted(s.tasks[id].pc), s.tasks[x].pc)
  {
    var pc := s.tasks[id].pc;
    WaitsForIt(pc, l);
    if LockWaitedFor(pc) == Some(l) {
      CanGrantIff(s.locks.Of(l), Uses(s, l), id);
      forall x: nat | x < |s.tasks|
        ensures x != id ==>
                  (Conflict(Granted(pc), s.tasks[x].pc) <==> Clash(UseOf(Granted(pc), l), UseOf(s.tasks[x].pc, l)))
      {
        if x != id {
          OnlyNewClashes(s, id, l, x);
        }
      }
    }
  }

  // What the task held before does not clash with anything.
  lemma OnlyNewClashes(s: State, id: nat, l: LockId, x: nat)
    requires LocksAgree(s) && id < |s.tasks| && x < |s.tasks| && x != id
    requires LockWaitedFor(s.tasks[id].pc) == Some(l)
    ensures Conflict(Granted(s.tasks[id].pc), s.tasks[x].pc) <==>
              Clash(UseOf(Granted(s.tasks[id].pc), l), UseOf(s.tasks[x].pc, l))
  {
    var pc := s.tasks[id].pc;
    ConflictIsClash(Granted(pc), s.tasks[x].pc);
    forall other: LockId | other != l ensures !Clash(UseOf(Granted(pc), other), UseOf(s.tasks[x].pc, other)) {
      assert UseOf(Granted(pc), other).Holding? ==> UseOf(Granted(pc), other) == UseOf(pc, other);
      NoClash(s.locks.Of(other), Uses(s, other), id, x);
    }
  }

}
