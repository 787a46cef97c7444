/**
 * The per-backend breaker map: lock-free reads of a published map, and writers that
 * copy it, change one key and publish the copy while holding a lock.
 */
module BreakerManager {
  import opened Words

  /** Where a call of get_breaker or remove_backend stands. */
  datatype Call =
    | Looking(id: string)                               // before the lock-free read
    | Missed(id: string)                                // waiting for the lock
    | Locked(id: string)                                // before the second read
    | Copied(id: string, snapshot: map<string, nat>)    // not there: about to publish
    | Published(id: string, breaker: nat)               // about to unlock
    | Returned(id: string, breaker: nat)
    | RemoveWaiting(id: string)
    | RemoveLocked(id: string)
    | RemoveCopied(id: string, snapshot: map<string, nat>)
    | RemovePublished(id: string)
    | Removed(id: string)

  /** Breakers are numbered in order of creation. */
  datatype Manager = Manager(breakers: map<string, nat>, holder: Option<nat>, calls: seq<Call>, created: nat)

  const Initial := Manager(map[], None, [], 0)

  datatype Step = Get(id: string) | Remove(id: string) | Advance(i: nat)

  predicate HoldsLock(c: Call) {
    c.Locked? || c.Copied? || c.Published? || c.RemoveLocked? || c.RemoveCopied? || c.RemovePublished?
  }

  function Move(m: Manager, i: nat, c: Call): Manager
    requires i < |m.calls|
  {
    m.(calls := m.calls[i := c])
  }

  function Apply(m: Manager, step: Step): Manager {
    match step
    case Get(id) => m.(calls := m.calls + [Looking(id)])
    case Remove(id) => m.(calls := m.calls + [RemoveWaiting(id)])
    case Advance(i) => if i < |m.calls| then Progress(m, i) else m
  }

  function Progress(m: Manager, i: nat): Manager
    requires i < |m.calls|
  {
    match m.calls[i]
    case Looking(id) => Move(m, i, if id in m.breakers then Returned(id, m.breakers[id]) else Missed(id))
    case Missed(id) => if m.holder == None then Move(m.(holder := Some(i)), i, Locked(id)) else m
    case Locked(id) =>
      if id in m.breakers then Move(m.(holder := None), i, Returned(id, m.breakers[id]))
      else Move(m, i, Copied(id, m.breakers))
    case Copied(id, snapshot) =>
      Move(m.(breakers := snapshot[id := m.created], created := m.created + 1), i, Published(id, m.created))
    case Published(id, b) => Move(m.(holder := None), i, Returned(id, b))
    case RemoveWaiting(id) => if m.holder == None then Move(m.(holder := Some(i)), i, RemoveLocked(id)) else m
    case RemoveLocked(id) => Move(m, i, RemoveCopied(id, m.breakers))
    case RemoveCopied(id, snapshot) => Move(m.(breakers := snapshot - {id}), i, RemovePublished(id))
    case RemovePublished(id) => Move(m.(holder := None), i, Removed(id))
    case _ => m
  }

  function Run(steps: seq<Step>): Manager {
    if steps == [] then Initial else Apply(Run(steps[..|steps| - 1]), steps[|steps| - 1])
  }

  // ----- The lock makes every copy current -----

  ghost predicate LockInv(m: Manager) {
    && (forall i :: 0 <= i < |m.calls| ==> (HoldsLock(m.calls[i]) <==> m.holder == Some(i)))
    && (m.holder.Some? ==> m.holder.value < |m.calls|)
    && (forall i :: 0 <= i < |m.calls| && m.calls[i].Copied? ==>
        m.calls[i].snapshot == m.breakers && m.calls[i].id !in m.breakers)
    && (forall i :: 0 <= i < |m.calls| && m.calls[i].RemoveCopied? ==> m.calls[i].snapshot == m.breakers)
  }

  /** No two ids share a breaker. */
  ghost predicate FreshInv(m: Manager) {
    && (forall id :: id in m.breakers ==> m.breakers[id] < m.created)
    && (forall id1, id2 :: id1 in m.breakers && id2 in m.breakers && m.breakers[id1] == m.breakers[id2] ==> id1 == id2)
  }

  lemma {:induction false} InvAlways(steps: seq<Step>)
    ensures LockInv(Run(steps)) && FreshInv(Run(steps))
  {
    if steps != [] {
      hide LockInv, FreshInv, Apply;
      InvAlways(steps[..|steps| - 1]);
      LockStep(Run(steps[..|steps| - 1]), steps[|steps| - 1]);
      FreshStep(Run(steps[..|steps| - 1]), steps[|steps| - 1]);
    }
  }

  lemma {:induction false} LockStep(m: Manager, step: Step)
    requires LockInv(m)
    ensures LockInv(Apply(m, step))
  {
  }

  lemma {:induction false} FreshStep(m: Manager, step: Step)
    requires LockInv(m) && FreshInv(m)
    ensures FreshInv(Apply(m, step))
  {
  }

  /** Backends are isolated: in every interleaving different ids have different breakers. */
  lemma {:induction false} BreakersAreNotShared(steps: seq<Step>, id1: string, id2: string)
    requires id1 in Run(steps).breakers && id2 in Run(steps).breakers
    ensures Run(steps).breakers[id1] == Run(steps).breakers[id2] <==> id1 == id2
  {
    InvAlways(steps);
  }

  lemma {:induction false} RunStep(steps: seq<Step>, step: Step)
    ensures Run(steps + [step]) == Apply(Run(steps), step)
  {
    assert (steps + [step])[..|steps|] == steps;
  }

  /** Publishing changes the map at the writer's own id and nowhere else: no insertion is lost. */
  lemma {:induction false} PublishTouchesOneId(steps: seq<Step>, step: Step, id: string)
    ensures var m, m' := Run(steps), Run(steps + [step]);
      || (id in m.breakers && id in m'.breakers && m.breakers[id] == m'.breakers[id])
      || (id !in m.breakers && id !in m'.breakers)
      || (step.Advance? && step.i < |m.calls| && m.calls[step.i].id == id && HoldsLock(m.calls[step.i])
          && (id in m'.breakers ==> id !in m.breakers && m.calls[step.i].Copied?)
          && (id !in m'.breakers ==> m.calls[step.i].RemoveCopied?))
  {
    RunStep(steps, step);
    InvAlways(steps);
  }

  /** A removal that publishes takes its id out of the map. */
  lemma {:induction false} RemovedIsGone(steps: seq<Step>, i: nat)
    requires i < |Run(steps).calls| && Run(steps).calls[i].RemoveCopied?
    ensures Run(steps).calls[i].id !in Run(steps + [Advance(i)]).breakers
  {
    RunStep(steps, Advance(i));
  }

  /** A breaker that is published is new: after a removal the id starts afresh. */
  lemma {:induction false} PublishedIsNew(steps: seq<Step>, i: nat)
    requires i < |Run(steps).calls| && Run(steps).calls[i].Copied?
    ensures var (m, m') := (Run(steps), Run(steps + [Advance(i)]));
      var id := m.calls[i].id;
      id in m'.breakers && m'.breakers[id] == m.created && forall k | k in m.breakers :: m.breakers[k] < m'.breakers[id]
  {
    RunStep(steps, Advance(i));
    InvAlways(steps);
  }

  // ----- One breaker per id -----

  predicate IsRemoval(c: Call) {
    c.RemoveWaiting? || c.RemoveLocked? || c.RemoveCopied? || c.RemovePublished? || c.Removed?
  }

  ghost predicate KeptInv(m: Manager, id: string) {
    forall i :: 0 <= i < |m.calls| && m.calls[i].id == id ==>
      && !IsRemoval(m.calls[i])
      && (m.calls[i].Published? || m.calls[i].Returned? ==> id in m.breakers && m.breakers[id] == m.calls[i].breaker)
  }

  lemma {:induction false} KeptStep(m: Manager, step: Step, id: string)
    requires LockInv(m) && KeptInv(m, id) && step != Remove(id)
    ensures KeptInv(Apply(m, step), id)
  {
    var m' := Apply(m, step);
    if step.Advance? && step.i < |m.calls| && m.calls[step.i].id != id {
      assert id in m.breakers ==> id in m'.breakers && m'.breakers[id] == m.breakers[id];
    }
  }

  lemma {:induction false} KeptAlways(steps: seq<Step>, id: string)
    requires Remove(id) !in steps
    ensures KeptInv(Run(steps), id)
  {
    hide LockInv, KeptInv, Apply;
    if steps == [] {
      NothingToKeep(id);
    } else {
      var front := steps[..|steps| - 1];
      KeptAlways(front, id);
      InvAlways(front);
      KeptStep(Run(front), steps[|steps| - 1], id);
    }
  }

  lemma {:induction false} NothingToKeep(id: string)
    ensures KeptInv(Initial, id)
  {
  }

  /** In every run that never removes `id`, all calls for it return the breaker that is published. */
  lemma {:induction false} OneBreakerPerId(steps: seq<Step>, id: string, i: nat, j: nat)
    requires Remove(id) !in steps
    requires i < |Run(steps).calls| && j < |Run(steps).calls|
    requires Run(steps).calls[i].Returned? && Run(steps).calls[i].id == id
    requires Run(steps).calls[j].Returned? && Run(steps).calls[j].id == id
    ensures Run(steps).calls[i].breaker == Run(steps).calls[j].breaker
    ensures id in Run(steps).breakers && Run(steps).breakers[id] == Run(steps).calls[i].breaker
  {
    KeptAlways(steps, id);
  }

  /** And the published entry, once there, never changes, whatever happens to other ids. */
  lemma {:induction false} PublishedEntriesStay(steps: seq<Step>, more: seq<Step>, id: string)
    requires Remove(id) !in steps + more && id in Run(steps).breakers
    ensures id in Run(steps + more).breakers && Run(steps + more).breakers[id] == Run(steps).breakers[id]
  {
    if more == [] {
      assert steps + more == steps;
    } else {
      var front, last := more[..|more| - 1], more[|more| - 1];
      assert steps + more == (steps + front) + [last];
      assert forall x | x in steps + front :: x in steps + more;
      PublishedEntriesStay(steps, front, id);
      PublishTouchesOneId(steps + front, last, id);
      KeptAlways(steps + front, id);
    }
  }
}
