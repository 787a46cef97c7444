/** The HTTP/1.1 idle pool: a bounded stack of connections per backend address. */
module Http1Pool {
  import opened Words

  datatype Pooled<S> = Pooled(sender: S, lastUsed: nat)

  /** Oldest first, no longer than the limit, and nothing from the future. */
  ghost predicate IsStack<S>(pool: seq<Pooled<S>>, maxIdle: nat, now: nat) {
    && |pool| <= maxIdle
    && (forall i, j :: 0 <= i < j < |pool| ==> pool[i].lastUsed <= pool[j].lastUsed)
    && (forall i :: 0 <= i < |pool| ==> pool[i].lastUsed <= now)
  }

  predicate IsFresh<S>(c: Pooled<S>, idleTimeout: nat, now: nat) {
    now - c.lastUsed <= idleTimeout
  }

  function PoolOf<A, S>(pools: map<A, seq<Pooled<S>>>, addr: A): seq<Pooled<S>> {
    if addr in pools then pools[addr] else []
  }

  function AfterPut<A, S>(pools: map<A, seq<Pooled<S>>>, maxIdle: nat, addr: A, sender: S, now: nat)
    : map<A, seq<Pooled<S>>>
  {
    var pool := PoolOf(pools, addr);
    pools[addr := if |pool| >= maxIdle then pool else pool + [Pooled(sender, now)]]
  }

  function AfterTryGet<A, S>(pools: map<A, seq<Pooled<S>>>, addr: A): map<A, seq<Pooled<S>>> {
    var pool := PoolOf(pools, addr);
    if pool == [] then pools else pools[addr := pool[..|pool| - 1]]
  }

  function Taken<A, S>(pools: map<A, seq<Pooled<S>>>, idleTimeout: nat, addr: A, now: nat): Option<S> {
    var pool := PoolOf(pools, addr);
    if pool == [] || !IsFresh(pool[|pool| - 1], idleTimeout, now) then None else Some(pool[|pool| - 1].sender)
  }

  class Http1Pool<A(==), S> {
    var pools: map<A, seq<Pooled<S>>>
    const maxIdle: nat
    const idleTimeout: nat

    ghost predicate Valid(now: nat)
      reads this
    {
      forall a :: a in pools ==> IsStack(pools[a], maxIdle, now)
    }

    constructor (maxIdle: nat, idleTimeout: nat)
      ensures Valid(0) && pools == map[] && this.maxIdle == maxIdle && this.idleTimeout == idleTimeout
    {
      pools := map[];
      this.maxIdle, this.idleTimeout := maxIdle, idleTimeout;
    }

    /** None means that no idle connection to the backend is still fresh, not just the newest. */
    method TryGet(addr: A, now: nat) returns (sender: Option<S>)
      requires Valid(now)
      modifies this
      ensures Valid(now) && pools == AfterTryGet(old(pools), addr)
      ensures sender == Taken(old(pools), idleTimeout, addr, now)
      ensures sender.None? <==> forall c :: c in PoolOf(old(pools), addr) ==> !IsFresh(c, idleTimeout, now)
    {
      if addr !in pools || pools[addr] == [] {
        return None;
      }
      var pool := pools[addr];
      var conn := pool[|pool| - 1];
      assert conn in pool;
      pools := pools[addr := pool[..|pool| - 1]];
      if now - conn.lastUsed > idleTimeout {
        return None;
      }
      return Some(conn.sender);
    }

    method Put(addr: A, sender: S, now: nat)
      requires Valid(now)
      modifies this
      ensures Valid(now) && pools == AfterPut(old(pools), maxIdle, addr, sender, now)
    {
      var pool := if addr in pools then pools[addr] else [];
      pools := pools[addr := pool];
      if |pool| >= maxIdle {
        return;
      }
      pools := pools[addr := pool + [Pooled(sender, now)]];
    }
  }

  // ----- Runs -----

  datatype PoolOp<A, S> = DoPut(addr: A, sender: S, now: nat) | DoGet(addr: A, now: nat)

  function Apply<A, S>(pools: map<A, seq<Pooled<S>>>, maxIdle: nat, op: PoolOp<A, S>): map<A, seq<Pooled<S>>> {
    match op
    case DoPut(addr, sender, now) => AfterPut(pools, maxIdle, addr, sender, now)
    case DoGet(addr, now) => AfterTryGet(pools, addr)
  }

  function Run<A, S>(maxIdle: nat, ops: seq<PoolOp<A, S>>): map<A, seq<Pooled<S>>> {
    if ops == [] then map[] else Apply(Run(maxIdle, ops[..|ops| - 1]), maxIdle, ops[|ops| - 1])
  }

  ghost predicate IsMonotone<A, S>(ops: seq<PoolOp<A, S>>) {
    forall i, j :: 0 <= i < j < |ops| ==> ops[i].now <= ops[j].now
  }

  ghost predicate AllStacks<A(!new), S>(pools: map<A, seq<Pooled<S>>>, maxIdle: nat, now: nat) {
    forall a :: a in pools ==> IsStack(pools[a], maxIdle, now)
  }

  lemma {:induction false} StacksStaySorted<A(!new), S>(maxIdle: nat, ops: seq<PoolOp<A, S>>, now: nat)
    requires IsMonotone(ops) && (ops != [] ==> ops[|ops| - 1].now <= now)
    ensures AllStacks(Run(maxIdle, ops), maxIdle, now)
  {
    if ops != [] {
      var front, last := ops[..|ops| - 1], ops[|ops| - 1];
      StacksStaySorted(maxIdle, front, last.now);
    }
  }

  /** In every run a lookup comes back empty exactly when no idle connection is fresh. */
  lemma {:induction false} MissMeansNothingFresh<A(!new), S>(maxIdle: nat, idleTimeout: nat,
      ops: seq<PoolOp<A, S>>, addr: A, now: nat)
    requires IsMonotone(ops) && (ops != [] ==> ops[|ops| - 1].now <= now)
    ensures var pools := Run(maxIdle, ops);
      Taken(pools, idleTimeout, addr, now).None?
      <==> forall c :: c in PoolOf(pools, addr) ==> !IsFresh(c, idleTimeout, now)
  {
    StacksStaySorted(maxIdle, ops, now);
    var pool := PoolOf(Run(maxIdle, ops), addr);
    assert pool != [] ==> pool[|pool| - 1] in pool;
  }

  function Senders<S>(pool: seq<Pooled<S>>): (m: multiset<S>) {
    if pool == [] then multiset{} else Senders(pool[..|pool| - 1]) + multiset{pool[|pool| - 1].sender}
  }

  /** What one operation puts in for a backend, hands out for it, and drops: above the limit, or taken out too old. */
  function PutBy<A(==), S>(op: PoolOp<A, S>, addr: A): multiset<S> {
    if op.DoPut? && op.addr == addr then multiset{op.sender} else multiset{}
  }

  function HandedBy<A(==), S>(pools: map<A, seq<Pooled<S>>>, idleTimeout: nat, op: PoolOp<A, S>, addr: A): multiset<S> {
    var sender := if op.DoGet? && op.addr == addr then Taken(pools, idleTimeout, addr, op.now) else None;
    if sender.Some? then multiset{sender.value} else multiset{}
  }

  function DroppedBy<A(==), S>(pools: map<A, seq<Pooled<S>>>, maxIdle: nat, idleTimeout: nat, op: PoolOp<A, S>, addr: A)
    : multiset<S>
  {
    var pool := PoolOf(pools, addr);
    if op.addr != addr then multiset{}
    else if op.DoPut? then if |pool| >= maxIdle then multiset{op.sender} else multiset{}
    else if pool != [] && op.now - pool[|pool| - 1].lastUsed > idleTimeout then multiset{pool[|pool| - 1].sender}
    else multiset{}
  }

  function PutFor<A(==), S>(ops: seq<PoolOp<A, S>>, addr: A): multiset<S> {
    if ops == [] then multiset{} else PutFor(ops[..|ops| - 1], addr) + PutBy(ops[|ops| - 1], addr)
  }

  function HandedOut<A(==), S>(maxIdle: nat, idleTimeout: nat, ops: seq<PoolOp<A, S>>, addr: A): multiset<S> {
    if ops == [] then multiset{} else
    var front := ops[..|ops| - 1];
    HandedOut(maxIdle, idleTimeout, front, addr) + HandedBy(Run(maxIdle, front), idleTimeout, ops[|ops| - 1], addr)
  }

  function Dropped<A(==), S>(maxIdle: nat, idleTimeout: nat, ops: seq<PoolOp<A, S>>, addr: A): multiset<S> {
    if ops == [] then multiset{} else
    var front := ops[..|ops| - 1];
    Dropped(maxIdle, idleTimeout, front, addr)
    + DroppedBy(Run(maxIdle, front), maxIdle, idleTimeout, ops[|ops| - 1], addr)
  }

  lemma {:induction false} OpConserves<A, S>(pools: map<A, seq<Pooled<S>>>, maxIdle: nat, idleTimeout: nat,
      op: PoolOp<A, S>, addr: A)
    ensures HandedBy(pools, idleTimeout, op, addr) + Senders(PoolOf(Apply(pools, maxIdle, op), addr))
      + DroppedBy(pools, maxIdle, idleTimeout, op, addr)
      == Senders(PoolOf(pools, addr)) + PutBy(op, addr)
  {
    hide Senders, PoolOf, AfterPut, AfterTryGet, Taken;
    if op.addr != addr {
      OthersStay(pools, maxIdle, op, addr);
    } else if op.DoPut? {
      PutConserves(pools, maxIdle, addr, op.sender, op.now);
    } else {
      GetConserves(pools, idleTimeout, addr, op.now);
    }
  }

  lemma {:induction false} OthersStay<A, S>(pools: map<A, seq<Pooled<S>>>, maxIdle: nat, op: PoolOp<A, S>, addr: A)
    requires op.addr != addr
    ensures PoolOf(Apply(pools, maxIdle, op), addr) == PoolOf(pools, addr)
  {
  }

  lemma {:induction false} PutConserves<A, S>(pools: map<A, seq<Pooled<S>>>, maxIdle: nat, addr: A, sender: S, now: nat)
    ensures Senders(PoolOf(AfterPut(pools, maxIdle, addr, sender, now), addr))
      + (if |PoolOf(pools, addr)| >= maxIdle then multiset{sender} else multiset{})
      == Senders(PoolOf(pools, addr)) + multiset{sender}
  {
    var pool := PoolOf(pools, addr);
    assert (pool + [Pooled(sender, now)])[..|pool|] == pool;
  }

  lemma {:induction false} GetConserves<A, S>(pools: map<A, seq<Pooled<S>>>, idleTimeout: nat, addr: A, now: nat)
    ensures var (taken, pool) := (Taken(pools, idleTimeout, addr, now), PoolOf(pools, addr));
      (if taken.Some? then multiset{taken.value} else multiset{})
      + Senders(PoolOf(AfterTryGet(pools, addr), addr))
      + (if pool != [] && now - pool[|pool| - 1].lastUsed > idleTimeout then multiset{pool[|pool| - 1].sender}
         else multiset{})
      == Senders(pool)
  {
  }

  lemma {:induction false} SumsAdd<S>(out: multiset<S>, stays: multiset<S>, lost: multiset<S>, all: multiset<S>,
      out': multiset<S>, stays': multiset<S>, lost': multiset<S>, more: multiset<S>)
    requires out + stays + lost == all && out' + stays' + lost' == stays + more
    ensures (out + out') + stays' + (lost + lost') == all + more
  {
    assert (out + out') + stays' + (lost + lost') == out + (out' + stays' + lost') + lost;
  }

  /**
   * Conservation: what was put in for a backend was handed out for it, is idle for it, or was
   * dropped because the stack was full or the connection too old; each exactly once.
   */
  lemma {:induction false} EachSenderOnce<A, S>(maxIdle: nat, idleTimeout: nat, ops: seq<PoolOp<A, S>>, addr: A)
    ensures HandedOut(maxIdle, idleTimeout, ops, addr) + Senders(PoolOf(Run(maxIdle, ops), addr))
      + Dropped(maxIdle, idleTimeout, ops, addr) == PutFor(ops, addr)
  {
    if ops != [] {
      hide Apply, Senders, HandedBy, DroppedBy, PutBy, PoolOf;
      var front, last := ops[..|ops| - 1], ops[|ops| - 1];
      EachSenderOnce(maxIdle, idleTimeout, front, addr);
      var before := Run(maxIdle, front);
      OpConserves(before, maxIdle, idleTimeout, last, addr);
      SumsAdd(HandedOut(maxIdle, idleTimeout, front, addr), Senders(PoolOf(before, addr)),
        Dropped(maxIdle, idleTimeout, front, addr), PutFor(front, addr),
        HandedBy(before, idleTimeout, last, addr), Senders(PoolOf(Run(maxIdle, ops), addr)),
        DroppedBy(before, maxIdle, idleTimeout, last, addr), PutBy(last, addr));
    }
  }

  /**
   * In every run: a connection put in below the limit is the next one handed out for its backend,
   * exactly within the idle timeout, and other backends' stacks are left alone.
   */
  lemma {:induction false} PutThenGet<A, S>(maxIdle: nat, idleTimeout: nat, ops: seq<PoolOp<A, S>>,
      addr: A, sender: S, putAt: nat, getAt: nat, other: A)
    requires |PoolOf(Run(maxIdle, ops), addr)| < maxIdle
    ensures var pools := Run(maxIdle, ops + [DoPut(addr, sender, putAt)]);
      && Taken(pools, idleTimeout, addr, getAt) == (if getAt - putAt <= idleTimeout then Some(sender) else None)
      && PoolOf(AfterTryGet(pools, addr), addr) == PoolOf(Run(maxIdle, ops), addr)
      && (other != addr ==> PoolOf(AfterTryGet(pools, addr), other) == PoolOf(Run(maxIdle, ops), other))
  {
    assert (ops + [DoPut(addr, sender, putAt)])[..|ops|] == ops;
  }
}
