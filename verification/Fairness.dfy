// Nobody who waits for a lock is overtaken: however many connections arrive meanwhile, the lock is
// granted at most once to each request that was ahead.
module Fairness {
  import opened Peering
  import opened FairLock
  import opened Server

  // The request of task id has p others ahead of it in the queue for l.
  predicate Queued(s: State, l: LockId, id: nat, p: nat) {
    var q := s.locks.Of(l).queue;
    p < |q| && q[p].0 == id
  }

  predicate WaitsFor(s: State, l: LockId, id: nat) {
    id < |s.tasks| && UseOf(s.tasks[id].pc, l).Waiting?
  }

  function Grants(steps: seq<Step>, l: LockId): nat {
    if steps == [] then 0
    else
      var last := steps[|steps| - 1];
      Grants(steps[..|steps| - 1], l) + (if last.Grant? && last.l == l then 1 else 0)
  }

  lemma EdgeEndsNoWait(pc: Pc, pc': Pc, l: LockId)
    requires Edge(pc, pc')
    ensures !UseOf(pc, l).Waiting?
  {
  }

  lemma WaitsForOne(pc: Pc, l: LockId, other: LockId)
    requires UseOf(pc, l).Waiting? && other != l
    ensures !UseOf(pc, other).Waiting? && UseOf(Granted(pc), l).Holding?
  {
  }

  lemma ChangeOfQueue(k: Lock, id: nat, before: Use, after: Use)
    ensures var k' := Change(k, id, before, after);
            if before.Waiting? && after.Holding? && k.queue != [] then k'.queue == k.queue[1..]
            else k.queue <= k'.queue
  {
  }

  // A grant of l takes the head of its queue; every other step leaves the queue as it was, or adds a
  // request at its end.
  lemma QueueAfter(c: Config, s: State, step: Step, l: LockId)
    requires Enabled(s, step)
    ensures var q, q' := s.locks.Of(l).queue, Apply(c, s, step).locks.Of(l).queue;
            if step.Grant? && step.l == l then q != [] && q[0].0 == step.id && q' == q[1..] else q <= q'
  {
    if !step.Tick? && !step.Spawn? {
      var pc, pc' := s.tasks[step.id].pc, Next(c, s, step);
      ChangeOfQueue(s.locks.Of(l), step.id, UseOf(pc, l), UseOf(pc', l));
      assert Apply(c, s, step).locks.Of(l) == Change(s.locks.Of(l), step.id, UseOf(pc, l), UseOf(pc', l));
      if step.Grant? {
        if step.l == l {
          WaitsForOne(pc, l, if l == StorageLock then RelayLock else StorageLock);
        } else {
          WaitsForOne(pc, step.l, l);
        }
      } else {
        NextIsEdge(c, s, step);
        EdgeEndsNoWait(pc, pc', l);
      }
    }
  }

  lemma GrantEndsWait(c: Config, s: State, id: nat, l: LockId)
    requires Enabled(s, Grant(id, l))
    ensures !WaitsFor(Apply(c, s, Grant(id, l)), l, id)
  {
    WaitsForOne(s.tasks[id].pc, l, if l == StorageLock then RelayLock else StorageLock);
  }

  lemma StepKeepsPlace(c: Config, s: State, step: Step, l: LockId, id: nat, p: nat)
    requires Enabled(s, step) && Queued(s, l, id, p) && WaitsFor(Apply(c, s, step), l, id)
    ensures var granted := step.Grant? && step.l == l;
            && (granted ==> p > 0)
            && Queued(Apply(c, s, step), l, id, if granted then p - 1 else p)
  {
    QueueAfter(c, s, step, l);
    if step.Grant? && step.l == l && step.id == id {
      GrantEndsWait(c, s, id, l);
    }
  }

  lemma GrantsExtend(steps: seq<Step>, step: Step, l: LockId)
    ensures Grants(steps + [step], l) == Grants(steps, l) + (if step.Grant? && step.l == l then 1 else 0)
  {
    assert (steps + [step])[..|steps|] == steps;
  }

  // If the task has place p before step m and still waits after it, it has moved forward by the grant
  // that the step was, if it was one.
  ghost predicate MovesUp(run: seq<State>, steps: seq<Step>, l: LockId, id: nat, m: nat, p: nat)
    requires m < |steps| < |run|
  {
    var granted := steps[m].Grant? && steps[m].l == l;
    Queued(run[m], l, id, p) ==> (granted ==> p > 0) && Queued(run[m + 1], l, id, if granted then p - 1 else p)
  }

  lemma {:induction false} CountsDown(run: seq<State>, steps: seq<Step>, l: LockId, id: nat, p: nat, n: nat)
    requires n <= |steps| < |run| && Queued(run[0], l, id, p)
    requires forall m: nat, q: nat :: m < n ==> MovesUp(run, steps, l, id, m, q)
    ensures Grants(steps[..n], l) <= p && Queued(run[n], l, id, p - Grants(steps[..n], l))
  {
    if n > 0 {
      CountsDown(run, steps, l, id, p, n - 1);
      assert MovesUp(run, steps, l, id, n - 1, p - Grants(steps[..n - 1], l));
      GrantsExtend(steps[..n - 1], steps[n - 1], l);
      assert steps[..n] == steps[..n - 1] + [steps[n - 1]];
    }
  }

  lemma PathMovesUp(c: Config, run: seq<State>, steps: seq<Step>, l: LockId, id: nat, m: nat, p: nat)
    requires IsPath(c, run, steps) && m < |steps| && WaitsFor(run[m + 1], l, id)
    ensures MovesUp(run, steps, l, id, m, p)
  {
    assert Follows(c, run[m], steps[m], run[m + 1]);
    if Queued(run[m], l, id, p) {
      StepKeepsPlace(c, run[m], steps[m], l, id, p);
    }
  }

  lemma AllMoveUp(c: Config, run: seq<State>, steps: seq<Step>, l: LockId, id: nat)
    requires IsPath(c, run, steps) && forall i :: 0 <= i < |run| ==> WaitsFor(run[i], l, id)
    ensures forall m: nat, q: nat :: m < |steps| ==> MovesUp(run, steps, l, id, m, q)
  {
    forall m: nat, q: nat | m < |steps| ensures MovesUp(run, steps, l, id, m, q) {
      PathMovesUp(c, run, steps, l, id, m, q);
    }
  }

  lemma CountsAllDown(run: seq<State>, steps: seq<Step>, l: LockId, id: nat, p: nat)
    requires |run| == |steps| + 1 && Queued(run[0], l, id, p)
    requires forall m: nat, q: nat :: m < |steps| ==> MovesUp(run, steps, l, id, m, q)
    ensures Grants(steps, l) <= p && Queued(run[|steps|], l, id, p - Grants(steps, l))
  {
    CountsDown(run, steps, l, id, p, |steps|);
    assert steps[..|steps|] == steps;
  }

  // While a task waits, every grant of its lock goes to a request that was ahead of its own, and
  // moves its own one place forward; none goes to a later request.
  lemma NotOvertaken(c: Config, run: seq<State>, steps: seq<Step>, l: LockId, id: nat, p: nat)
    requires IsPath(c, run, steps) && Queued(run[0], l, id, p)
    requires forall i :: 0 <= i < |run| ==> WaitsFor(run[i], l, id)
    ensures Grants(steps, l) <= p && Queued(run[|steps|], l, id, p - Grants(steps, l))
  {
    AllMoveUp(c, run, steps, l, id);
    CountsAllDown(run, steps, l, id, p);
  }

  lemma HasPlace(s: State, l: LockId, id: nat) returns (p: nat)
    requires LocksAgree(s) && WaitsFor(s, l, id)
    ensures Queued(s, l, id, p)
  {
    var k, u := s.locks.Of(l), Uses(s, l);
    assert Agrees(k, u);
    assert (id, u[id].mode) in k.queue;
    p :| 0 <= p < |k.queue| && k.queue[p] == (id, u[id].mode);
  }

  // In every run, from any moment i on at which a task waits for a lock and for as long as it does,
  // the lock is granted fewer times than there were requests for it at moment i.
  lemma WaitingIsBounded(c: Config, run: seq<State>, steps: seq<Step>, i: nat, j: nat, l: LockId, id: nat)
    requires IsRun(c, run, steps) && i <= j <= |steps|
    requires forall m :: i <= m <= j ==> WaitsFor(run[m], l, id)
    ensures Grants(steps[i..j], l) < |run[i].locks.Of(l).queue|
  {
    LocksAlwaysAgree(c, run, steps);
    var p := HasPlace(run[i], l, id);
    var part, taken := run[i..j + 1], steps[i..j];
    forall m | 0 <= m < |taken| ensures Follows(c, part[m], taken[m], part[m + 1]) {
      assert Follows(c, run[i + m], steps[i + m], run[i + m + 1]);
    }
    forall m | 0 <= m < |part| ensures WaitsFor(part[m], l, id) {
      assert WaitsFor(run[i + m], l, id);
    }
    NotOvertaken(c, part, taken, l, id, p);
  }

}
