// The server's two counters: in every run each has counted what happened, but for the tasks that are
// still on their way to count it.
module Counters {
  import opened Wrappers
  import opened Peering
  import opened History
  import opened Server

  function Number<T>(xs: seq<T>, p: T -> bool): nat {
    if xs == [] then 0 else Number(xs[..|xs| - 1], p) + (if p(xs[|xs| - 1]) then 1 else 0)
  }

  function One(b: bool): int { if b then 1 else 0 }

  lemma NumberAppend<T>(xs: seq<T>, x: T, p: T -> bool)
    ensures Number(xs + [x], p) == Number(xs, p) + One(p(x))
  {
    assert (xs + [x])[..|xs|] == xs;
  }

  lemma {:induction false} NumberUpdate<T>(xs: seq<T>, i: nat, x: T, p: T -> bool)
    requires i < |xs|
    ensures Number(xs[i := x], p) == Number(xs, p) - One(p(xs[i])) + One(p(x))
  {
    var n := |xs| - 1;
    if i < n {
      NumberUpdate(xs[..n], i, x, p);
      assert xs[i := x][..n] == xs[..n][i := x];
    } else {
      assert xs[i := x][..n] == xs[..n];
    }
  }

  predicate IsCounting(t: Task) { t.pc.CountWait? || t.pc.CountHold? }
  predicate IsFailing(t: Task) { t.pc.TlsFailedWait? || t.pc.TlsFailedHold? }
  predicate AsksForRelay(e: Event) { e.Stored? && e.ann.needsRelay }
  predicate IsFailedHandshake(step: Step) { step.Handshake? && !step.ok }

  ghost predicate Counted(s: State, steps: seq<Step>) {
    && s.stats.relaysNeeded + Number(s.tasks, IsCounting) == Number(s.history, AsksForRelay)
    && s.stats.tlsErrors + Number(s.tasks, IsFailing) == Number(steps, IsFailedHandshake)
  }

  // What one step of a task adds to each side.
  lemma StepBalances(c: Config, s: State, step: Step)
    requires Enabled(s, step) && !step.Tick? && !step.Spawn?
    ensures var t := s.tasks[step.id];
            var t' := t.(pc := Next(c, s, step));
            var stats, e := Effect(c, s, step).stats, EventOf(c, s, step);
            && stats.relaysNeeded - s.stats.relaysNeeded + One(IsCounting(t')) - One(IsCounting(t))
               == One(e.Some? && AsksForRelay(e.value))
            && stats.tlsErrors - s.stats.tlsErrors + One(IsFailing(t')) - One(IsFailing(t))
               == One(IsFailedHandshake(step))
  {
  }

  lemma MoveKeepsCounts(s: State, steps: seq<Step>, step: Step, id: nat, t: Task, e: Option<Event>, s': State)
    requires Counted(s, steps) && id < |s.tasks| && s'.tasks == s.tasks[id := t]
    requires s'.history == if e.Some? then s.history + [e.value] else s.history
    requires s'.stats.relaysNeeded - s.stats.relaysNeeded + One(IsCounting(t)) - One(IsCounting(s.tasks[id]))
          == One(e.Some? && AsksForRelay(e.value))
    requires s'.stats.tlsErrors - s.stats.tlsErrors + One(IsFailing(t)) - One(IsFailing(s.tasks[id]))
          == One(IsFailedHandshake(step))
    ensures Counted(s', steps + [step])
  {
    NumberAppend(steps, step, IsFailedHandshake);
    NumberUpdate(s.tasks, id, t, IsCounting);
    NumberUpdate(s.tasks, id, t, IsFailing);
    if e.Some? {
      NumberAppend(s.history, e.value, AsksForRelay);
    }
  }

  lemma StepKeepsCounts(c: Config, s: State, steps: seq<Step>, step: Step)
    requires Counted(s, steps) && Enabled(s, step)
    ensures Counted(Apply(c, s, step), steps + [step])
  {
    if step.Tick? || step.Spawn? {
      NumberAppend(steps, step, IsFailedHandshake);
      if step.Spawn? {
        NumberAppend(s.tasks, Task(Accepting, step.from, step.input), IsCounting);
        NumberAppend(s.tasks, Task(Accepting, step.from, step.input), IsFailing);
      }
    } else {
      StepBalances(c, s, step);
      MoveKeepsCounts(s, steps, step, step.id, s.tasks[step.id].(pc := Next(c, s, step)), EventOf(c, s, step),
                      Apply(c, s, step));
    }
  }

  lemma Begins(s: State)
    requires Initial(s)
    ensures Counted(s, [])
  {
    NumberAppend([], s.tasks[0], IsCounting);
    NumberAppend([], s.tasks[0], IsFailing);
    if |s.tasks| == 2 {
      assert s.tasks == [] + [s.tasks[0]] + [s.tasks[1]];
      NumberAppend([] + [s.tasks[0]], s.tasks[1], IsCounting);
      NumberAppend([] + [s.tasks[0]], s.tasks[1], IsFailing);
    } else {
      assert s.tasks == [] + [s.tasks[0]];
    }
  }

  // At every point of every run: the stores of announcements that ask for a relay are those counted
  // and those of tasks on their way to count; and the failed handshakes likewise.
  lemma {:induction false} CountersAgree(c: Config, run: seq<State>, steps: seq<Step>, n: nat)
    requires IsRun(c, run, steps) && n <= |steps|
    ensures Counted(run[n], steps[..n])
  {
    if n == 0 {
      Begins(run[0]);
      assert steps[..n] == [];
    } else {
      CountersAgree(c, run, steps, n - 1);
      assert Follows(c, run[n - 1], steps[n - 1], run[n - 1 + 1]);
      StepKeepsCounts(c, run[n - 1], steps[..n - 1], steps[n - 1]);
      assert steps[..n] == steps[..n - 1] + [steps[n - 1]];
    }
  }

}
