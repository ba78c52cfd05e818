// How old a record can be when it is given out. Lookups never look at timestamps; only the
// sweeps bound the age.
module Staleness {
  import opened Wrappers
  import opened Text
  import opened Peering
  import opened History
  import opened Server

  // The clock does not go back, and the stamps of a store are read while it runs.
  ghost predicate Forward(run: seq<State>, steps: seq<Step>)
    requires |run| == |steps| + 1
  {
    && (forall i :: 0 <= i < |steps| ==> run[i].clock <= run[i + 1].clock)
    && (forall i, t :: 0 <= i < |steps| && steps[i].Store? && t in steps[i].stamps ==>
          run[i].clock <= t <= run[i + 1].clock)
  }

  // What the clock said when the last completed sweep read it.
  function LastSweep(h: seq<Event>): Option<Time> {
    if h == [] then None
    else if h[|h| - 1].Swept? then Some(h[|h| - 1].now)
    else LastSweep(h[..|h| - 1])
  }

  // A sweep under way has read the clock by now.
  predicate SweepReadBy(pc: Pc, clock: Time) {
    pc.SweepWait? || pc.SweepHold? ==> pc.now <= clock
  }

  ghost predicate Dated(start: Time, s: State) {
    && start <= s.clock
    && (forall k :: k in s.records ==> start <= s.records[k].timestamp <= s.clock)
    && (forall id :: 0 <= id < |s.tasks| ==> SweepReadBy(s.tasks[id].pc, s.clock))
    && (LastSweep(s.history).Some? ==> LastSweep(s.history).value <= s.clock)
    && (LastSweep(s.history).Some? ==>
          forall k :: k in s.records ==> LastSweep(s.history).value - s.records[k].timestamp < RECORD_TIMEOUT)
  }

  lemma LastSweepExtends(h: seq<Event>, e: Event)
    ensures LastSweep(h + [e]) == if e.Swept? then Some(e.now) else LastSweep(h)
  {
  }

  lemma StoreKeepsDates(c: Config, start: Time, s: State, id: nat, stamps: seq<Time>, s': State)
    requires Enabled(s, Store(id, stamps)) && s' == Apply(c, s, Store(id, stamps)) && Dated(start, s)
    requires s.clock <= s'.clock && forall t :: t in stamps ==> s.clock <= t <= s'.clock
    ensures Dated(start, s')
  {
    var a := s.tasks[id].pc.a;
    LastSweepExtends(s.history, Stored(id, a, s.tasks[id].pc.ip, stamps));
    forall k | k in s'.records
      ensures start <= s'.records[k].timestamp <= s'.clock
      ensures LastSweep(s.history).Some? ==> LastSweep(s.history).value - s'.records[k].timestamp < RECORD_TIMEOUT
    {
      StoreAllAt(s.records, a, s.tasks[id].pc.ip, stamps, k);
      if k.0 == a.initiator && k.1 in a.peers {
        assert stamps[LastIndex(a.peers, k.1)] in stamps;
      }
    }
  }

  lemma SweepKeepsDates(c: Config, start: Time, s: State, id: nat)
    requires Enabled(s, Sweep(id)) && Dated(start, s)
    ensures Dated(start, Apply(c, s, Sweep(id)))
  {
  }

  // The steps that leave the directory alone.
  lemma OtherKeepsRecords(c: Config, s: State, step: Step)
    requires Enabled(s, step) && !step.Store? && !step.Sweep?
    ensures Apply(c, s, step).records == s.records && LastSweep(Apply(c, s, step).history) == LastSweep(s.history)
  {
    var e := EventOf(c, s, step);
    if e.Some? {
      LastSweepExtends(s.history, e.value);
    }
  }

  lemma NextReadsClock(c: Config, s: State, step: Step)
    requires Enabled(s, step) && !step.Tick? && !step.Spawn? && SweepReadBy(s.tasks[step.id].pc, s.clock)
    ensures SweepReadBy(Next(c, s, step), s.clock)
  {
  }

  lemma OtherKeepsDates(c: Config, start: Time, s: State, step: Step, s': State)
    requires Enabled(s, step) && s' == Apply(c, s, step) && Dated(start, s) && !step.Store? && !step.Sweep?
    requires s.clock <= s'.clock
    ensures Dated(start, s')
  {
    OtherKeepsRecords(c, s, step);
    if !step.Tick? && !step.Spawn? {
      NextReadsClock(c, s, step);
    }
  }

  lemma StepKeepsDates(c: Config, start: Time, s: State, step: Step, s': State)
    requires Enabled(s, step) && s' == Apply(c, s, step) && Dated(start, s)
    requires s.clock <= s'.clock && (step.Store? ==> forall t :: t in step.stamps ==> s.clock <= t <= s'.clock)
    ensures Dated(start, s')
  {
    match step
    case Store(id, stamps) => StoreKeepsDates(c, start, s, id, stamps, s');
    case Sweep(id) => SweepKeepsDates(c, start, s, id);
    case _ => OtherKeepsDates(c, start, s, step, s');
  }

  lemma {:induction false} RunsStayDated(c: Config, run: seq<State>, steps: seq<Step>)
    requires IsRun(c, run, steps) && Forward(run, steps)
    ensures forall i :: 0 <= i < |run| ==> Dated(run[0].clock, run[i])
    decreases |steps|
  {
    if steps != [] {
      var n := |steps| - 1;
      RunsStayDated(c, run[..n + 1], steps[..n]);
      assert run[..n + 1][n] == run[n] && Follows(c, run[n], steps[n], run[n + 1]);
      StepKeepsDates(c, run[0].clock, run[n], steps[n], run[n + 1]);
      forall i | 0 <= i < |run| ensures Dated(run[0].clock, run[i]) {
        if i <= n { assert run[..n + 1][i] == run[i]; }
      }
    }
  }

  // When the clock does not go back, whatever record a lookup reads is younger than an hour
  // plus the time since the last completed sweep read its clock; before the first sweep, it is
  // no older than the run.
  lemma BoundedStaleness(c: Config, run: seq<State>, steps: seq<Step>, i: nat, k: (Str, Str))
    requires IsRun(c, run, steps) && Forward(run, steps)
    requires i < |steps| && steps[i].Look? && k in run[i].records
    ensures var age := run[i].clock - run[i].records[k].timestamp;
            && 0 <= age <= run[i].clock - run[0].clock
            && match LastSweep(run[i].history)
               case None => true
               case Some(last) => age < 3_600_000_000_000 + (run[i].clock - last)
  {
    RunsStayDated(c, run, steps);
  }

}
