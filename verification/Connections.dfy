// What the steps of a run say of each connection: nothing is done for it before its TLS handshake
// has succeeded, and nothing is stored for it before its answer is out and the connection closed.
module Connections {
  import opened Net
  import opened Peering
  import opened History
  import opened Server

  // The task's one handshake is among the steps, and it succeeded.
  predicate Succeeded(steps: seq<Step>, id: nat) {
    Handshake(id, true) in steps && Handshake(id, false) !in steps
  }

  predicate Untried(steps: seq<Step>, id: nat) {
    Handshake(id, true) !in steps && Handshake(id, false) !in steps
  }

  predicate Unshaken(steps: seq<Step>, id: nat) {
    Handshake(id, true) !in steps && Handshake(id, false) in steps
  }

  // A reply of the task went out as a whole, with these entries, and the connection was closed.
  ghost predicate Closed(steps: seq<Step>, id: nat) {
    exists entries :: Reply(id, entries, true, true) in steps
  }

  // What the steps so far say of a task at its program point.
  ghost predicate Explained(steps: seq<Step>, id: nat, t: Task) {
    match t.pc
    case Accepting => Untried(steps, id)
    case TlsFailedWait => Unshaken(steps, id)
    case TlsFailedHold => Unshaken(steps, id)
    case Reading => Succeeded(steps, id)
    case LookupWait(_) => Succeeded(steps, id)
    case RelayWait(_) => Succeeded(steps, id)
    case LookupHold(_) => Succeeded(steps, id)
    case Replying(_, _) => Succeeded(steps, id)
    case StoreWait(_, ip) => Succeeded(steps, id) && Closed(steps, id) && t.from == V4(ip)
    case StoreHold(_, ip) => Succeeded(steps, id) && Closed(steps, id) && t.from == V4(ip)
    case CountWait => Succeeded(steps, id)
    case CountHold => Succeeded(steps, id)
    case _ => true
  }

  ghost predicate EventExplained(steps: seq<Step>, tasks: seq<Task>, e: Event) {
    match e
    case Swept(_) => true
    case Looked(id, _, from, _) => Succeeded(steps, id) && id < |tasks| && tasks[id].from == from
    case Replied(id, _) => Succeeded(steps, id)
    case Stored(id, _, ip, _) =>
      Succeeded(steps, id) && Closed(steps, id) && id < |tasks| && tasks[id].from == V4(ip)
  }

  ghost predicate Inv(s: State, steps: seq<Step>) {
    && (forall id: nat :: id < |s.tasks| ==> Explained(steps, id, s.tasks[id]))
    && (forall id: nat :: id >= |s.tasks| ==> Untried(steps, id))
    && (forall e :: e in s.history ==> EventExplained(steps, s.tasks, e))
  }

  lemma NextIsExplained(c: Config, s: State, steps: seq<Step>, step: Step)
    requires Enabled(s, step) && !step.Tick? && !step.Spawn? && Explained(steps, step.id, s.tasks[step.id])
    ensures Explained(steps + [step], step.id, s.tasks[step.id].(pc := Next(c, s, step)))
  {
    assert step in steps + [step];
  }

  // The event of a step is that of a task whose handshake succeeded.
  lemma EventIsExplained(c: Config, s: State, steps: seq<Step>, step: Step)
    requires Enabled(s, step) && Inv(s, steps) && EventOf(c, s, step).Some?
    ensures EventExplained(steps, s.tasks, EventOf(c, s, step).value)
  {
    assert Explained(steps, step.id, s.tasks[step.id]);
  }

  // Steps of others, and later ones, change nothing about it.
  lemma StaysExplained(steps: seq<Step>, step: Step, id: nat, t: Task)
    requires Explained(steps, id, t) && (step.Handshake? ==> step.id != id)
    ensures Explained(steps + [step], id, t)
  {
    if entries :| Reply(id, entries, true, true) in steps {
      assert Reply(id, entries, true, true) in steps + [step];
    }
  }

  lemma EventStays(s: State, steps: seq<Step>, step: Step, tasks: seq<Task>, e: Event)
    requires Enabled(s, step) && Inv(s, steps) && EventExplained(steps, s.tasks, e)
    requires |s.tasks| <= |tasks| && forall id :: 0 <= id < |s.tasks| ==> tasks[id].from == s.tasks[id].from
    ensures EventExplained(steps + [step], tasks, e)
  {
    if step.Handshake? {
      assert Explained(steps, step.id, s.tasks[step.id]);
    }
    if !e.Swept? {
      if entries :| Reply(e.task, entries, true, true) in steps {
        assert Reply(e.task, entries, true, true) in steps + [step];
      }
    }
  }

  lemma StepKeepsInv(c: Config, s: State, steps: seq<Step>, step: Step)
    requires Inv(s, steps) && Enabled(s, step)
    ensures Inv(Apply(c, s, step), steps + [step])
  {
    var s' := Apply(c, s, step);
    forall id: nat | id < |s'.tasks| ensures Explained(steps + [step], id, s'.tasks[id]) {
      if !step.Tick? && !step.Spawn? && step.id == id {
        NextIsExplained(c, s, steps, step);
      } else if id < |s.tasks| {
        StaysExplained(steps, step, id, s.tasks[id]);
      } else {
        assert Untried(steps, id);
      }
    }
    forall id: nat | id >= |s'.tasks| ensures Untried(steps + [step], id) {
      assert Untried(steps, id);
    }
    forall e | e in s'.history ensures EventExplained(steps + [step], s'.tasks, e) {
      if e !in s.history {
        EventIsExplained(c, s, steps, step);
      }
      EventStays(s, steps, step, s'.tasks, e);
    }
  }

  lemma {:induction false} RunsKeepInv(c: Config, run: seq<State>, steps: seq<Step>, n: nat)
    requires IsRun(c, run, steps) && n <= |steps|
    ensures Inv(run[n], steps[..n])
  {
    if n > 0 {
      RunsKeepInv(c, run, steps, n - 1);
      assert Follows(c, run[n - 1], steps[n - 1], run[n - 1 + 1]);
      StepKeepsInv(c, run[n - 1], steps[..n - 1], steps[n - 1]);
      assert steps[..n] == steps[..n - 1] + [steps[n - 1]];
    }
  }

  lemma {:induction false} HistoryStays(c: Config, run: seq<State>, steps: seq<Step>, n: nat, m: nat, e: Event)
    requires IsPath(c, run, steps) && n <= m <= |steps| && e in run[n].history
    ensures e in run[m].history
    decreases m
  {
    if n < m {
      HistoryStays(c, run, steps, n, m - 1, e);
      assert Follows(c, run[m - 1], steps[m - 1], run[m - 1 + 1]);
    }
  }

  // At every point of every run: a task that has looked up, replied or stored has had its one
  // handshake by then, and it succeeded.
  lemma HandledAfterHandshake(c: Config, run: seq<State>, steps: seq<Step>, n: nat, e: Event)
    requires IsRun(c, run, steps) && n <= |steps|
    requires e in run[n].history && (e.Looked? || e.Replied? || e.Stored?)
    ensures Handshake(e.task, true) in steps[..n] && Handshake(e.task, false) !in steps
  {
    RunsKeepInv(c, run, steps, n);
    RunsKeepInv(c, run, steps, |steps|);
    assert steps[..|steps|] == steps;
    HistoryStays(c, run, steps, n, |steps|, e);
  }

  // And a task that has stored had sent its answer as a whole and closed its connection by then; it
  // stored under the IPv4 address that the connection came from.
  lemma StoredAfterClosing(c: Config, run: seq<State>, steps: seq<Step>, n: nat, e: Event)
    requires IsRun(c, run, steps) && n <= |steps| && e in run[n].history && e.Stored?
    ensures exists entries :: Reply(e.task, entries, true, true) in steps[..n]
    ensures e.task < |run[n].tasks| && run[n].tasks[e.task].from == V4(e.ip)
  {
    RunsKeepInv(c, run, steps, n);
    assert EventExplained(steps[..n], run[n].tasks, e);
  }

}
