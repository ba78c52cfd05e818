// The expiry sweeper: it never stops, and it sweeps by the clock as it was when it woke up.
module Sweeper {
  import opened Wrappers
  import opened Peering
  import opened Server

  // Asleep, waiting for the storage, or sweeping.
  predicate Sweeps(pc: Pc) { pc.SweepSleep? || pc.SweepWait? || pc.SweepHold? }

  lemma NextSweeps(c: Config, s: State, step: Step)
    requires Enabled(s, step) && !step.Tick? && !step.Spawn? && Sweeps(s.tasks[step.id].pc)
    ensures Sweeps(Next(c, s, step))
  {
  }

  lemma StepKeepsSweeping(c: Config, s: State, step: Step)
    requires |s.tasks| >= 1 && Sweeps(s.tasks[0].pc) && Enabled(s, step)
    ensures var s' := Apply(c, s, step); |s'.tasks| >= 1 && Sweeps(s'.tasks[0].pc)
  {
    if !step.Tick? && !step.Spawn? && step.id == 0 {
      NextSweeps(c, s, step);
    }
  }

  // In every state of every run the first task is one of these.
  lemma {:induction false} SweeperNeverStops(c: Config, run: seq<State>, steps: seq<Step>, n: nat)
    requires IsRun(c, run, steps) && n <= |steps|
    ensures |run[n].tasks| >= 1 && Sweeps(run[n].tasks[0].pc)
  {
    if n > 0 {
      SweeperNeverStops(c, run, steps, n - 1);
      assert Follows(c, run[n - 1], steps[n - 1], run[n - 1 + 1]);
      StepKeepsSweeping(c, run[n - 1], steps[n - 1]);
    }
  }

  // Task id woke up from its sleep when the clock read now, before step n.
  ghost predicate WokeAt(run: seq<State>, steps: seq<Step>, n: nat, id: nat, now: Time)
    requires n <= |steps| < |run|
  {
    exists k: nat :: k < n && steps[k] == Wake(id) && id < |run[k].tasks| && run[k].tasks[id].pc == SweepSleep
                     && run[k].clock == now
  }

  // The reading that a task is about to sweep by.
  function InHand(pc: Pc): Option<Time> {
    match pc
    case SweepWait(now) => Some(now)
    case SweepHold(now) => Some(now)
    case _ => None
  }

  ghost predicate SomeoneWoke(run: seq<State>, steps: seq<Step>, n: nat, now: Time)
    requires n <= |steps| < |run|
  {
    exists id: nat :: WokeAt(run, steps, n, id, now)
  }

  // What the sweeper has in hand, and the sweeps made, by the clock readings before step n.
  ghost predicate ReadsInHand(run: seq<State>, steps: seq<Step>, n: nat)
    requires n <= |steps| < |run|
  {
    forall id: nat :: id < |run[n].tasks| && InHand(run[n].tasks[id].pc).Some? ==>
      WokeAt(run, steps, n, id, InHand(run[n].tasks[id].pc).value)
  }

  ghost predicate ReadsMade(run: seq<State>, steps: seq<Step>, n: nat)
    requires n <= |steps| < |run|
  {
    forall e :: e in run[n].history && e.Swept? ==> SomeoneWoke(run, steps, n, e.now)
  }

  lemma StillWoke(run: seq<State>, steps: seq<Step>, n: nat, id: nat, now: Time)
    requires n < |steps| < |run| && WokeAt(run, steps, n, id, now)
    ensures WokeAt(run, steps, n + 1, id, now)
  {
  }

  // How a step changes a reading in hand.
  lemma NextReads(c: Config, s: State, step: Step)
    requires Enabled(s, step) && !step.Tick? && !step.Spawn?
    ensures InHand(Next(c, s, step)).Some? ==>
              || (&& step == Wake(step.id) && s.tasks[step.id].pc == SweepSleep
                  && InHand(Next(c, s, step)).value == s.clock)
              || InHand(s.tasks[step.id].pc) == InHand(Next(c, s, step))
  {
  }

  lemma StepKeepsHand(c: Config, run: seq<State>, steps: seq<Step>, n: nat)
    requires IsPath(c, run, steps) && n < |steps| && ReadsInHand(run, steps, n)
    ensures ReadsInHand(run, steps, n + 1)
  {
    var s, step := run[n], steps[n];
    assert Follows(c, s, step, run[n + 1]);
    var tasks := run[n + 1].tasks;
    forall id: nat | id < |tasks| && InHand(tasks[id].pc).Some?
      ensures WokeAt(run, steps, n + 1, id, InHand(tasks[id].pc).value)
    {
      var now := InHand(tasks[id].pc).value;
      if !step.Tick? && !step.Spawn? && step.id == id {
        NextReads(c, s, step);
      }
      if id < |s.tasks| && InHand(s.tasks[id].pc) == Some(now) {
        StillWoke(run, steps, n, id, now);
      }
    }
  }

  lemma StepKeepsMade(c: Config, run: seq<State>, steps: seq<Step>, n: nat)
    requires IsPath(c, run, steps) && n < |steps| && ReadsInHand(run, steps, n) && ReadsMade(run, steps, n)
    ensures ReadsMade(run, steps, n + 1)
  {
    var s, step := run[n], steps[n];
    assert Follows(c, s, step, run[n + 1]);
    forall e | e in run[n + 1].history && e.Swept? ensures SomeoneWoke(run, steps, n + 1, e.now) {
      if e in s.history {
        var id: nat :| WokeAt(run, steps, n, id, e.now);
        StillWoke(run, steps, n, id, e.now);
      } else {
        assert step.Sweep? && s.tasks[step.id].pc == SweepHold(e.now);
        StillWoke(run, steps, n, step.id, e.now);
      }
    }
  }

  lemma BeginsWithoutReads(run: seq<State>, steps: seq<Step>)
    requires 0 <= |steps| < |run| && Initial(run[0])
    ensures ReadsInHand(run, steps, 0) && ReadsMade(run, steps, 0)
  {
  }

  // Every sweep of every run drops by the time that the clock read when its task woke up.
  lemma {:induction false} SweepsReadClock(c: Config, run: seq<State>, steps: seq<Step>, n: nat)
    requires IsRun(c, run, steps) && n <= |steps|
    ensures ReadsInHand(run, steps, n) && ReadsMade(run, steps, n)
  {
    if n == 0 {
      BeginsWithoutReads(run, steps);
    } else {
      var before: nat := n - 1;
      SweepsReadClock(c, run, steps, before);
      StepKeepsHand(c, run, steps, before);
      StepKeepsMade(c, run, steps, before);
    }
  }

}
