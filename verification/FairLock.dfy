// Readers-writer locks with a fair queue: a request waits behind every earlier one.
module FairLock {
  import opened Wrappers

  datatype Mode = Shared | Exclusive

  // What one task does with one lock.
  datatype Use = Idle | Waiting(mode: Mode) | Holding(mode: Mode)

  datatype Lock = Lock(readers: set<nat>, writer: Option<nat>, queue: seq<(nat, Mode)>)

  const FREE := Lock({}, None, [])

  // Only the head of the queue is granted, a writer only when nobody reads.
  predicate CanGrant(k: Lock, id: nat) {
    && |k.queue| > 0 && k.queue[0].0 == id
    && k.writer.None?
    && (k.queue[0].1.Exclusive? ==> k.readers == {})
  }

  predicate Allowed(k: Lock, id: nat, before: Use, after: Use) {
    || before == after
    || (before.Idle? && after.Waiting?)
    || (before.Waiting? && after == Holding(before.mode) && CanGrant(k, id))
    || (before.Holding? && after.Idle?)
  }

  function Change(k: Lock, id: nat, before: Use, after: Use): Lock {
    match (before, after)
    case (Idle, Waiting(m)) => k.(queue := k.queue + [(id, m)])
    case (Waiting(_), Holding(Shared)) =>
      k.(queue := if k.queue == [] then [] else k.queue[1..], readers := k.readers + {id})
    case (Waiting(_), Holding(Exclusive)) => k.(queue := if k.queue == [] then [] else k.queue[1..], writer := Some(id))
    case (Holding(Shared), Idle) => k.(readers := k.readers - {id})
    case (Holding(Exclusive), Idle) => k.(writer := None)
    case _ => k
  }

  // The lock's own fields say what the tasks do with it, and nobody shares it with a writer.
  ghost predicate Agrees(k: Lock, u: seq<Use>) {
    && (forall id: nat :: id in k.readers <==> id < |u| && u[id] == Holding(Shared))
    && (forall id: nat :: k.writer == Some(id) <==> id < |u| && u[id] == Holding(Exclusive))
    && (forall id: nat, m :: (id, m) in k.queue <==> id < |u| && u[id] == Waiting(m))
    && (forall i, j :: 0 <= i < j < |k.queue| ==> k.queue[i].0 != k.queue[j].0)
    && (k.writer.Some? ==> k.readers == {})
  }

  lemma ChangeKeepsAgreement(k: Lock, u: seq<Use>, id: nat, after: Use)
    requires Agrees(k, u) && id < |u| && Allowed(k, id, u[id], after)
    ensures Agrees(Change(k, id, u[id], after), u[id := after])
  {
  }

  lemma SpawnKeepsAgreement(k: Lock, u: seq<Use>)
    requires Agrees(k, u)
    ensures Agrees(k, u + [Idle])
  {
  }

}
