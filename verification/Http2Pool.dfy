/** The HTTP/2 pool: its health ladder, its capacity, and round-robin selection. */
module Http2Pool {
  import opened Words
  import opened NumberTheory

  // ----- The health ladder -----

  datatype HealthState = Healthy | Degraded | Unhealthy

  datatype Ladder = Ladder(health: HealthState, failures: nat, max: nat)

  const Top := Ladder(Healthy, 0, 8)

  function Succeed(l: Ladder): Ladder {
    Ladder(if l.health == Degraded then Healthy else l.health, 0, l.max)
  }

  function Fail(l: Ladder): Ladder {
    var failures := l.failures + 1;
    var drops := failures >= 5 && l.health == Healthy;
    Ladder(
      if failures >= 10 then Unhealthy else if drops then Degraded else l.health,
      failures,
      if drops then (if l.max < 1 then 1 else l.max) / 2 else l.max)
  }

  /** After the recovery timeout an unhealthy pool is given another chance. */
  function Recover(l: Ladder): Ladder {
    if l.health == Unhealthy then Ladder(Degraded, 0, l.max) else l
  }

  /** The outcome of one connect. */
  function Climb(l: Ladder, connects: bool): Ladder {
    if connects then Succeed(l) else Fail(l)
  }

  ghost predicate IsLadder(l: Ladder) {
    && (l.health == Healthy ==> l.failures < 5)
    && (l.health == Degraded ==> l.failures < 10)
    && l.max <= 8
  }

  // ----- Round-robin selection -----

  /** Distance from `start`, going round, to the first ready connection; the length if none is. */
  function Distance(ready: seq<bool>, start: nat, tried: nat): (d: nat)
    requires tried <= |ready|
    ensures tried <= d <= |ready|
    decreases |ready| - tried
  {
    if tried == |ready| then tried
    else if ready[(start + tried) % |ready|] then tried
    else Distance(ready, start, tried + 1)
  }

  /** `d` places on from `start` in a ring of `n`. */
  function Around(start: nat, d: nat, n: nat): (i: nat)
    requires n != 0
    ensures i < n
  {
    (start + d) % n
  }

  /** `k` selections in a row, each starting after the last. */
  function Picks(ready: seq<bool>, start: nat, k: nat): (picks: seq<nat>)
    ensures |picks| <= k
    decreases k
  {
    if k == 0 || Distance(ready, start, 0) == |ready| then [] else
    var idx := Around(start, Distance(ready, start, 0), |ready|);
    [idx] + Picks(ready, Around(idx, 1, |ready|), k - 1)
  }

  /** The ready positions of from..to when the list is repeated for ever. */
  function Count(ready: seq<bool>, from: nat, to: nat): (n: nat)
    requires ready != [] && from <= to
    ensures n <= to - from
  {
    if from == to then 0 else Count(ready, from, to - 1) + if ready[(to - 1) % |ready|] then 1 else 0
  }

  lemma {:induction false} CountFirst(ready: seq<bool>, from: nat, to: nat)
    requires ready != [] && from < to
    ensures Count(ready, from, to) == (if ready[from % |ready|] then 1 else 0) + Count(ready, from + 1, to)
  {
    if from + 1 < to { CountFirst(ready, from, to - 1); }
  }

  /** One lap counts the same wherever it starts. */
  lemma {:induction false} LapCount(ready: seq<bool>, base: nat)
    requires ready != []
    ensures Count(ready, base, base + |ready|) == Count(ready, 0, |ready|)
  {
    if base != 0 {
      LapCount(ready, base - 1);
      CountFirst(ready, base - 1, base - 1 + |ready|);
      ModShift(base - 1, |ready|, 1);
    }
  }

  /** From position `p`, the search stops at the first ready position `u`. */
  lemma {:induction false} DistanceFinds(ready: seq<bool>, p: nat, end: nat, tried: nat)
    requires ready != [] && tried <= |ready| && p + tried <= end <= p + |ready|
    requires Count(ready, p + tried, end) > 0
    ensures var u := p + Distance(ready, p % |ready|, tried);
      && u < end && ready[u % |ready|]
      && Count(ready, u + 1, end) == Count(ready, p + tried, end) - 1
    decreases |ready| - tried
  {
    ModAdd(p, tried, |ready|);
    CountFirst(ready, p + tried, end);
    if !ready[(p + tried) % |ready|] { DistanceFinds(ready, p, end, tried + 1); }
  }

  /** Selections made while `k` ready positions are left before `end` are at increasing positions before `end`. */
  lemma {:induction false} PicksAdvance(ready: seq<bool>, p: nat, end: nat, k: nat) returns (positions: seq<nat>)
    requires ready != [] && p <= end <= p + |ready| && k <= Count(ready, p, end)
    ensures |positions| == k == |Picks(ready, p % |ready|, k)|
    ensures forall i :: 0 <= i < k ==> p <= positions[i] < end && ready[positions[i] % |ready|]
    ensures forall i :: 0 <= i < k ==> Picks(ready, p % |ready|, k)[i] == positions[i] % |ready|
    ensures forall i, j :: 0 <= i < j < k ==> positions[i] < positions[j]
    decreases k
  {
    if k == 0 {
      positions := [];
    } else {
      hide Distance, Count;
      var n, d := |ready|, Distance(ready, p % |ready|, 0);
      DistanceFinds(ready, p, end, 0);
      var u := p + d;
      ModAdd(p, d, n);
      ModAdd(u, 1, n);
      var rest := PicksAdvance(ready, u + 1, end, k - 1);
      positions := [u] + rest;
    }
  }

  /**
   * With m connections ready, any m selections in a row are of m different connections,
   * and each of them is ready.
   */
  lemma {:induction false} SelectionsAreDistinct(ready: seq<bool>, start: nat, k: nat)
    requires ready != [] && start < |ready| && k <= Count(ready, 0, |ready|)
    ensures var picks := Picks(ready, start, k);
      && |picks| == k
      && (forall i :: 0 <= i < k ==> picks[i] < |ready| && ready[picks[i]])
      && (forall i, j :: 0 <= i < j < k ==> picks[i] != picks[j])
  {
    hide Distance, Picks, Count;
    var n := |ready|;
    assert start % n == start;
    LapCount(ready, start);
    var positions := PicksAdvance(ready, start, start + n, k);
    var picks := Picks(ready, start, k);
    forall i, j | 0 <= i < j < k ensures picks[i] != picks[j] {
      ModApart(positions[i], positions[j], n);
    }
  }

  // ----- The object -----

  datatype ConnState = Active | Draining | Failed

  datatype Conn = Conn(id: nat, state: ConnState)

  datatype Acquired = Sender(id: nat) | BreakerOpen | ConnectFailed | NoCapacity

  /** The connections that have not failed, in order. */
  function Live(conns: seq<Conn>): (r: seq<Conn>)
    ensures |r| <= |conns|
    ensures forall c :: c in r <==> c in conns && c.state != Failed
  {
    if conns == [] then [] else
    var last := conns[|conns| - 1];
    Live(conns[..|conns| - 1]) + if last.state != Failed then [last] else []
  }

  /** Which connections can take a request, given the ids whose sender is ready. */
  function ReadyList(conns: seq<Conn>, readyIds: set<nat>): (r: seq<bool>)
    ensures |r| == |conns|
  {
    seq(|conns|, i requires 0 <= i < |conns| => conns[i].state == Active && conns[i].id in readyIds)
  }

  // ----- The pool as a value -----

  datatype Pool = Pool(connections: seq<Conn>, next: nat, ladder: Ladder, lastSuccessMs: nat, created: nat)

  function NewPool(nowMs: nat): Pool {
    Pool([], 0, Top, nowMs, 0)
  }

  predicate IsBlocked(p: Pool, nowMs: nat) {
    p.ladder.health == Unhealthy && nowMs - p.lastSuccessMs <= 30000
  }

  /** A connection request that is not blocked, after clean-up: round robin, else grow, else give up. */
  function Serve(p: Pool, nowMs: nat, readyIds: set<nat>, connects: bool): (Pool, Acquired) {
    var (conns, n) := (p.connections, |p.connections|);
    var d := Distance(ReadyList(conns, readyIds), p.next, 0);
    if d < n then
      var idx := Around(p.next, d, n);
      (p.(next := Around(idx, 1, n)), Sender(conns[idx].id))
    else if n < p.ladder.max then
      if connects
      then (Pool(conns + [Conn(p.created, Active)], p.next, Succeed(p.ladder), nowMs, p.created + 1), Sender(p.created))
      else (p.(ladder := Fail(p.ladder)), ConnectFailed)
    else (p, NoCapacity)
  }

  function AfterGet(p: Pool, nowMs: nat, readyIds: set<nat>, connects: bool): (Pool, Acquired) {
    if IsBlocked(p, nowMs) then (p, BreakerOpen)
    else Serve(p.(ladder := Recover(p.ladder), connections := Live(p.connections)), nowMs, readyIds, connects)
  }

  function Min(a: nat, b: nat): nat {
    if a < b then a else b
  }

  /** Filling an empty pool, when `successes` connects work before one is refused. */
  function AfterPrewarm(p: Pool, nowMs: nat, successes: nat): Pool {
    if p.connections != [] then p else
    var made := Min(successes, p.ladder.max);
    var risen := if made == 0 then p.ladder else Succeed(p.ladder);
    Pool(
      seq(made, i requires 0 <= i < made => Conn(p.created + i, Active)),
      p.next,
      if made < p.ladder.max then Fail(risen) else risen,
      if made == 0 then p.lastSuccessMs else nowMs,
      p.created + made)
  }

  class Http2Pool {
    var connections: seq<Conn>
    var nextConnIndex: nat
    var ladder: Ladder
    var lastSuccessMs: nat
    var created: nat

    ghost function View(): Pool
      reads this
    {
      Pool(connections, nextConnIndex, ladder, lastSuccessMs, created)
    }

    constructor (nowMs: nat)
      ensures View() == NewPool(nowMs)
    {
      connections, nextConnIndex, ladder, lastSuccessMs, created := [], 0, Top, nowMs, 0;
    }

    /** `connects` is the outcome of the connect and the handshake. */
    method CreateConnection(nowMs: nat, connects: bool) returns (conn: Option<Conn>)
      modifies `ladder, `lastSuccessMs, `created
      ensures ladder == Climb(old(ladder), connects)
      ensures if connects
        then conn == Some(Conn(old(created), Active)) && created == old(created) + 1 && lastSuccessMs == nowMs
        else conn == None && created == old(created) && lastSuccessMs == old(lastSuccessMs)
    {
      if connects {
        ladder, lastSuccessMs := Succeed(ladder), nowMs;
        conn := Some(Conn(created, Active));
        created := created + 1;
      } else {
        ladder := Fail(ladder);
        conn := None;
      }
    }

    /** Fill an empty pool, as prewarm_pool does; the first refusal ends it. */
    method Prewarm(nowMs: nat, successes: nat)
      modifies this
      ensures View() == AfterPrewarm(old(View()), nowMs, successes)
    {
      if connections != [] {
        return;
      }
      ghost var max := ladder.max;
      for i := 0 to ladder.max
        invariant |connections| == i <= successes && created == old(created) + i && nextConnIndex == old(nextConnIndex)
        invariant lastSuccessMs == if i == 0 then old(lastSuccessMs) else nowMs
        invariant forall j :: 0 <= j < i ==> connections[j] == Conn(old(created) + j, Active)
        invariant ladder == if i == 0 then old(ladder) else Succeed(old(ladder))
      {
        var conn := CreateConnection(nowMs, i < successes);
        if conn.None? {
          break;
        }
        connections := connections + [conn.value];
      }
    }

    /** Walk once round the connections from the round-robin index. */
    method FindReady(readyIds: set<nat>) returns (chosen: Option<nat>)
      ensures var ready := ReadyList(connections, readyIds);
        var d := Distance(ready, nextConnIndex, 0);
        chosen == if d < |ready| then Some(Around(nextConnIndex, d, |ready|)) else None
    {
      var n := |connections|;
      ghost var ready := ReadyList(connections, readyIds);
      for i := 0 to n
        invariant Distance(ready, nextConnIndex, 0) == Distance(ready, nextConnIndex, i)
      {
        var idx := Around(nextConnIndex, i, n);
        if connections[idx].state == Active && connections[idx].id in readyIds {
          return Some(idx);
        }
      }
      return None;
    }

    method GetConnection(nowMs: nat, readyIds: set<nat>, connects: bool) returns (r: Acquired)
      modifies this
      ensures (View(), r) == AfterGet(old(View()), nowMs, readyIds, connects)
    {
      hide Live, ReadyList, Distance, Succeed, Fail, Around;
      if ladder.health == Unhealthy {
        if nowMs - lastSuccessMs > 30000 {
          ladder := ladder.(health := Degraded, failures := 0);
        } else {
          return BreakerOpen;
        }
      }
      connections := Live(connections);
      var chosen := FindReady(readyIds);
      if chosen.Some? {
        nextConnIndex := Around(chosen.value, 1, |connections|);
        return Sender(connections[chosen.value].id);
      }
      if |connections| < ladder.max {
        var conn := CreateConnection(nowMs, connects);
        if conn.None? {
          return ConnectFailed;
        }
        connections := connections + [conn.value];
        return Sender(conn.value.id);
      }
      return NoCapacity;
    }
  }

  // ----- Runs of the pool -----

  datatype PoolOp =
    | DoGet(nowMs: nat, readyIds: set<nat>, connects: bool)
    | DoPrewarm(nowMs: nat, successes: nat)

  function Apply(p: Pool, op: PoolOp): Pool {
    match op
    case DoGet(now, readyIds, connects) => AfterGet(p, now, readyIds, connects).0
    case DoPrewarm(now, successes) => AfterPrewarm(p, now, successes)
  }

  function Run(ops: seq<PoolOp>): Pool {
    if ops == [] then NewPool(0) else Apply(Run(ops[..|ops| - 1]), ops[|ops| - 1])
  }

  /**
   * Each halving happened to a healthy pool with room, and each recovery brought a connection
   * that never leaves; so after two halvings a healthy pool is full and cannot fail again.
   */
  ghost predicate PoolInv(p: Pool) {
    var n := |p.connections|;
    && IsLadder(p.ladder) && n <= 8
    && p.next < (if n == 0 then 1 else n)
    && (forall i :: 0 <= i < n ==> p.connections[i].state == Active && p.connections[i].id < p.created)
    && (forall i, j :: 0 <= i < j < n ==> p.connections[i].id != p.connections[j].id)
    && (p.ladder.max == 8
        || (p.ladder.max == 4 && (p.ladder.health == Healthy ==> 1 <= n))
        || (p.ladder.max == 2 && 1 <= n && (p.ladder.health == Healthy ==> 2 <= n)))
  }

  lemma {:induction false} LiveKeepsActive(conns: seq<Conn>)
    requires forall i :: 0 <= i < |conns| ==> conns[i].state == Active
    ensures Live(conns) == conns
  {
    if conns != [] {
      var front, last := conns[..|conns| - 1], conns[|conns| - 1];
      assert last.state == Active && conns == front + [last];
      LiveKeepsActive(front);
    }
  }

  lemma {:induction false} GetKeepsPool(p: Pool, nowMs: nat, readyIds: set<nat>, connects: bool)
    requires PoolInv(p)
    ensures PoolInv(AfterGet(p, nowMs, readyIds, connects).0)
  {
    hide Live, ReadyList, Distance;
    LiveKeepsActive(p.connections);
  }

  lemma {:induction false} PrewarmKeepsPool(p: Pool, nowMs: nat, successes: nat)
    requires PoolInv(p)
    ensures PoolInv(AfterPrewarm(p, nowMs, successes))
  {
  }

  lemma {:induction false} PoolInvAlways(ops: seq<PoolOp>)
    ensures PoolInv(Run(ops))
  {
    if ops != [] {
      hide PoolInv, AfterGet, AfterPrewarm;
      var front, op := ops[..|ops| - 1], ops[|ops| - 1];
      PoolInvAlways(front);
      match op
      case DoGet(now, readyIds, connects) => GetKeepsPool(Run(front), now, readyIds, connects);
      case DoPrewarm(now, successes) => PrewarmKeepsPool(Run(front), now, successes);
    }
  }

  lemma {:induction false} RunStep(ops: seq<PoolOp>, op: PoolOp)
    ensures Run(ops + [op]) == Apply(Run(ops), op)
  {
    assert (ops + [op])[..|ops|] == ops;
  }

  lemma {:induction false} CapacityNeverRises(p: Pool, op: PoolOp)
    ensures Apply(p, op).ladder.max <= p.ladder.max
  {
    hide Live, ReadyList, Distance;
  }

  /** In every run the capacity is 8, 4 or 2; it never rises, and there are never more than 8 connections. */
  lemma {:induction false} CapacityOnlyHalvesTwice(ops: seq<PoolOp>, more: seq<PoolOp>)
    ensures Run(ops).ladder.max in {8, 4, 2} && |Run(ops).connections| <= 8
    ensures Run(ops + more).ladder.max <= Run(ops).ladder.max
  {
    PoolInvAlways(ops);
    if more == [] {
      assert ops + more == ops;
    } else {
      hide PoolInv, Run, Apply;
      var front, last := more[..|more| - 1], more[|more| - 1];
      assert ops + more == (ops + front) + [last];
      CapacityOnlyHalvesTwice(ops, front);
      RunStep(ops + front, last);
      CapacityNeverRises(Run(ops + front), last);
    }
  }

  // ----- Both halvings happen -----

  function Refusals(k: nat): seq<PoolOp> {
    if k == 0 then [] else Refusals(k - 1) + [DoGet(0, {}, false)]
  }

  lemma {:induction false} NobodyReady(conns: seq<Conn>, start: nat, tried: nat)
    requires tried <= |conns|
    ensures Distance(ReadyList(conns, {}), start, tried) == |conns|
    decreases |conns| - tried
  {
    if tried < |conns| { NobodyReady(conns, start, tried + 1); }
  }

  function Counted(l: Ladder, k: nat): Ladder
    requires k <= 5
  {
    if k < 5 then Ladder(Healthy, k, l.max) else Ladder(Degraded, 5, l.max / 2)
  }

  /** Refused connects of a fresh, healthy pool with room: four only count, the fifth halves the capacity. */
  lemma {:induction false} RefusalsCount(ops: seq<PoolOp>, k: nat)
    requires var p := Run(ops); p.ladder.health == Healthy && p.ladder.failures == 0 && |p.connections| < p.ladder.max
    requires k <= 5
    ensures Run(ops + Refusals(k)) == Run(ops).(ladder := Counted(Run(ops).ladder, k))
  {
    hide Run, Apply, PoolInv;
    if k == 0 {
      assert ops + Refusals(0) == ops;
    } else {
      RefusalsCount(ops, k - 1);
      assert ops + Refusals(k) == (ops + Refusals(k - 1)) + [DoGet(0, {}, false)];
      RunStep(ops + Refusals(k - 1), DoGet(0, {}, false));
      PoolInvAlways(ops + Refusals(k - 1));
      RefusedStep(Run(ops + Refusals(k - 1)));
    }
  }

  lemma {:induction false} RefusedStep(p: Pool)
    requires PoolInv(p) && p.ladder.health == Healthy && |p.connections| < p.ladder.max
    ensures Apply(p, DoGet(0, {}, false)) == p.(ladder := Fail(p.ladder))
  {
    hide Live, ReadyList, Distance, Fail;
    LiveKeepsActive(p.connections);
    NobodyReady(p.connections, p.next, 0);
  }

  /** Five refusals, a connect, five refusals: the capacity is 2 and one connection is open. */
  function HalvingRun(): seq<PoolOp> {
    Refusals(5) + [DoGet(0, {}, true)] + Refusals(5)
  }

  lemma {:induction false} BothHalvingsHappen()
    ensures Run(Refusals(5)).ladder.max == 4
    ensures Run(HalvingRun()).ladder.max == 2 && |Run(HalvingRun()).connections| == 1
  {
    hide Refusals, Run, Apply, PoolInv;
    assert [] + Refusals(5) == Refusals(5);
    RunStart();
    RefusalsCount([], 5);
    var middle := Refusals(5) + [DoGet(0, {}, true)];
    RunStep(Refusals(5), DoGet(0, {}, true));
    PoolInvAlways(Refusals(5));
    ConnectedStep(Run(Refusals(5)));
    RefusalsCount(middle, 5);
  }

  lemma {:induction false} RunStart()
    ensures Run([]) == NewPool(0)
  {
  }

  lemma {:induction false} ConnectedStep(p: Pool)
    requires PoolInv(p) && p.ladder.health == Degraded && |p.connections| < p.ladder.max
    ensures Apply(p, DoGet(0, {}, true))
      == Pool(p.connections + [Conn(p.created, Active)], p.next, Succeed(p.ladder), 0, p.created + 1)
  {
    hide Live, ReadyList, Distance, Succeed, Fail;
    LiveKeepsActive(p.connections);
    NobodyReady(p.connections, p.next, 0);
  }

  // ----- A full pool -----

  /**
   * A full pool that is not blocked answers with a connection it has if one is ready, and with
   * NoCapacity otherwise.
   */
  lemma {:induction false} FullStep(p: Pool, op: PoolOp)
    requires PoolInv(p) && p.ladder.max <= |p.connections|
    ensures Apply(p, op).connections == p.connections && Apply(p, op).ladder.max == p.ladder.max
    ensures Apply(p, op).lastSuccessMs == p.lastSuccessMs
    ensures op.DoGet? && !IsBlocked(p, op.nowMs) ==>
      var r := AfterGet(p, op.nowMs, op.readyIds, op.connects).1;
      if HasReady(p.connections, op.readyIds) then r.Sender? && r.id in op.readyIds else r == NoCapacity
  {
    hide Live, ReadyList, Distance, HasReady;
    LiveKeepsActive(p.connections);
    if op.DoGet? { ReadyIffFound(p.connections, op.readyIds, p.next); }
  }

  predicate HasReady(conns: seq<Conn>, readyIds: set<nat>) {
    exists i :: 0 <= i < |conns| && conns[i].id in readyIds
  }

  /** Every connection is reached in one lap, so the search fails only if none is ready. */
  lemma {:induction false} ReadyIffFound(conns: seq<Conn>, readyIds: set<nat>, start: nat)
    requires forall i :: 0 <= i < |conns| ==> conns[i].state == Active
    ensures var (ready, n) := (ReadyList(conns, readyIds), |conns|);
      var d := Distance(ready, start, 0);
      && (d < n <==> HasReady(conns, readyIds))
      && (d < n ==> conns[(start + d) % n].id in readyIds)
  {
    hide Distance;
    var ready, n := ReadyList(conns, readyIds), |conns|;
    var d := Distance(ready, start, 0);
    FoundIsReady(ready, start, 0);
    if d < n { assert ready[(start + d) % n]; }
    if i :| 0 <= i < n && conns[i].id in readyIds {
      var t := LapReaches(start, i, n);
      ReadyIsFound(ready, start, 0, t);
    }
  }

  lemma {:induction false} FoundIsReady(ready: seq<bool>, start: nat, tried: nat)
    requires tried <= |ready|
    ensures var d := Distance(ready, start, tried); d < |ready| ==> ready[(start + d) % |ready|]
    decreases |ready| - tried
  {
    if tried < |ready| { FoundIsReady(ready, start, tried + 1); }
  }

  lemma {:induction false} ReadyIsFound(ready: seq<bool>, start: nat, tried: nat, t: nat)
    requires tried <= t < |ready| && ready[(start + t) % |ready|]
    ensures Distance(ready, start, tried) < |ready|
    decreases t - tried
  {
    if tried < t { ReadyIsFound(ready, start, tried + 1, t); }
  }

  lemma {:induction false} SmallMod(i: nat, n: nat)
    requires i < n
    ensures i % n == i
  {
  }

  lemma {:induction false} LapReaches(start: nat, i: nat, n: nat) returns (t: nat)
    requires i < n
    ensures t < n && (start + t) % n == i
  {
    var s := start % n;
    SmallMod(i, n);
    if s <= i {
      t := i - s;
      ModAdd(start, t, n);
      assert s + t == i;
    } else {
      t := i + n - s;
      ModAdd(start, t, n);
      ModShift(i, n, 1);
      assert s + t == i + n * 1;
    }
  }

  lemma {:induction false} FullStays(ops: seq<PoolOp>, more: seq<PoolOp>)
    requires Run(ops).ladder.max <= |Run(ops).connections|
    ensures Run(ops + more).connections == Run(ops).connections
    ensures Run(ops + more).ladder.max == Run(ops).ladder.max
    ensures Run(ops + more).lastSuccessMs == Run(ops).lastSuccessMs
  {
    hide Run, Apply, PoolInv;
    if more == [] {
      assert ops + more == ops;
    } else {
      var front, last := more[..|more| - 1], more[|more| - 1];
      assert ops + more == (ops + front) + [last];
      FullStays(ops, front);
      PoolInvAlways(ops + front);
      RunStep(ops + front, last);
      FullStep(Run(ops + front), last);
    }
  }

  /**
   * A pool whose connections reach its capacity is frozen, and only such a pool is: it never
   * connects again, even if none of its connections is ever ready again.
   */
  lemma {:induction false} FrozenIffFull(ops: seq<PoolOp>)
    ensures Run(ops).ladder.max <= |Run(ops).connections| <==>
      forall more: seq<PoolOp> :: Run(ops + more).connections == Run(ops).connections
  {
    hide Run;
    var p := Run(ops);
    if p.ladder.max <= |p.connections| {
      forall more: seq<PoolOp> ensures Run(ops + more).connections == p.connections { FullStays(ops, more); }
    } else {
      var op := DoGet(p.lastSuccessMs + 30001, {}, true);
      RunStep(ops, op);
      PoolInvAlways(ops);
      GrowStep(p, op.nowMs);
      assert Run(ops + [op]).connections != p.connections;
    }
  }

  lemma {:induction false} GrowStep(p: Pool, nowMs: nat)
    requires PoolInv(p) && |p.connections| < p.ladder.max && p.lastSuccessMs + 30000 < nowMs
    ensures AfterGet(p, nowMs, {}, true).0.connections == p.connections + [Conn(p.created, Active)]
  {
    hide Live, ReadyList, Distance;
    LiveKeepsActive(p.connections);
    NobodyReady(p.connections, p.next, 0);
  }

  /**
   * So once a pool is full and half a minute has passed since its last connect, every call that
   * finds no connection ready answers NoCapacity, however many calls follow.
   */
  lemma {:induction false} FullPoolRefusesForEver(ops: seq<PoolOp>, more: seq<PoolOp>, nowMs: nat, readyIds: set<nat>,
      connects: bool)
    requires Run(ops).ladder.max <= |Run(ops).connections| && Run(ops).lastSuccessMs + 30000 < nowMs
    ensures AfterGet(Run(ops + more), nowMs, readyIds, connects).1 == NoCapacity
      <==> !HasReady(Run(ops).connections, readyIds)
  {
    hide Run, AfterGet, PoolInv, HasReady;
    FullStays(ops, more);
    PoolInvAlways(ops + more);
    FullStep(Run(ops + more), DoGet(nowMs, readyIds, connects));
  }

  // ----- Round robin in every run -----

  /** The answers to a sequence of connection requests. */
  function AnswersOf(p: Pool, ops: seq<PoolOp>): (answers: seq<Acquired>)
    ensures |answers| == |ops|
    decreases |ops|
  {
    if ops == [] then [] else
    var op := ops[0];
    [if op.DoGet? then AfterGet(p, op.nowMs, op.readyIds, op.connects).1 else NoCapacity]
    + AnswersOf(Apply(p, op), ops[1..])
  }

  ghost predicate AreGets(ops: seq<PoolOp>, readyIds: set<nat>) {
    forall k :: 0 <= k < |ops| ==> ops[k].DoGet? && ops[k].readyIds == readyIds
  }

  /** A request that finds a ready connection answers with it and moves on by one place. */
  lemma {:induction false} GetPicks(p: Pool, op: PoolOp)
    requires PoolInv(p) && op.DoGet? && !IsBlocked(p, op.nowMs)
    requires Distance(ReadyList(p.connections, op.readyIds), p.next, 0) < |p.connections|
    ensures var n := |p.connections|;
      var idx := Around(p.next, Distance(ReadyList(p.connections, op.readyIds), p.next, 0), n);
      && AfterGet(p, op.nowMs, op.readyIds, op.connects).1 == Sender(p.connections[idx].id)
      && Apply(p, op) == p.(next := Around(idx, 1, n), ladder := Recover(p.ladder))
  {
    hide Live, ReadyList, Distance, Around;
    LiveKeepsActive(p.connections);
  }

  /** The connections at these places, as answers. */
  function SendersAt(conns: seq<Conn>, picks: seq<nat>): (answers: seq<Acquired>)
    ensures |answers| == |picks|
  {
    if picks == [] then [] else
    [if picks[0] < |conns| then Sender(conns[picks[0]].id) else NoCapacity] + SendersAt(conns, picks[1..])
  }

  lemma {:induction false} SendersFirst(conns: seq<Conn>, idx: nat, rest: seq<nat>)
    requires idx < |conns|
    ensures SendersAt(conns, [idx] + rest) == [Sender(conns[idx].id)] + SendersAt(conns, rest)
  {
    assert ([idx] + rest)[1..] == rest;
  }

  lemma {:induction false} SendersAre(conns: seq<Conn>, picks: seq<nat>, k: nat)
    requires k < |picks| && picks[k] < |conns|
    ensures SendersAt(conns, picks)[k] == Sender(conns[picks[k]].id)
  {
    if 0 < k { SendersAre(conns, picks[1..], k - 1); }
  }

  /** The pool's answers are its connections at the places that round robin picks. */
  lemma {:induction false} AnswersArePicks(p: Pool, ops: seq<PoolOp>, readyIds: set<nat>)
    requires PoolInv(p) && AreGets(ops, readyIds) && (ops != [] ==> !IsBlocked(p, ops[0].nowMs))
    requires |Picks(ReadyList(p.connections, readyIds), p.next, |ops|)| == |ops|
    ensures AnswersOf(p, ops)
      == SendersAt(p.connections, Picks(ReadyList(p.connections, readyIds), p.next, |ops|))
    decreases |ops|
  {
    hide ReadyList, Distance, PoolInv, AfterGet, Picks, Apply, IsBlocked, Around;
    hide AnswersOf, SendersAt, Recover, AreGets;
    var ready := ReadyList(p.connections, readyIds);
    if ops == [] {
      NoAnswers(p, ready);
    } else {
      var op, n, rest := ops[0], |p.connections|, ops[1..];
      StillGets(ops, readyIds);
      PicksStep(ready, p.next, |ops|);
      GetPicks(p, op);
      GetKeepsPool(p, op.nowMs, op.readyIds, op.connects);
      var p' := Apply(p, op);
      assert PoolInv(p') by { ApplyGet(p, op); }
      if rest != [] { NeverBlockedAfter(p, op, rest[0].nowMs); }
      AnswersArePicks(p', rest, readyIds);
      AnswersStep(p, ops);
      var idx := Around(p.next, Distance(ready, p.next, 0), n);
      SendersFirst(p.connections, idx, Picks(ready, p'.next, |rest|));
    }
  }

  lemma {:induction false} ApplyGet(p: Pool, op: PoolOp)
    requires op.DoGet?
    ensures Apply(p, op) == AfterGet(p, op.nowMs, op.readyIds, op.connects).0
  {
  }

  lemma {:induction false} NoAnswers(p: Pool, ready: seq<bool>)
    ensures AnswersOf(p, []) == [] && Picks(ready, p.next, 0) == [] && SendersAt(p.connections, []) == []
  {
  }

  lemma {:induction false} PicksStep(ready: seq<bool>, start: nat, k: nat)
    requires 0 < k && |Picks(ready, start, k)| == k
    ensures var d := Distance(ready, start, 0);
      && d < |ready|
      && var idx := Around(start, d, |ready|);
         Picks(ready, start, k) == [idx] + Picks(ready, Around(idx, 1, |ready|), k - 1)
         && |Picks(ready, Around(idx, 1, |ready|), k - 1)| == k - 1
  {
    hide Distance, Around;
  }

  lemma {:induction false} AnswersStep(p: Pool, ops: seq<PoolOp>)
    requires ops != [] && ops[0].DoGet?
    ensures AnswersOf(p, ops) ==
      [AfterGet(p, ops[0].nowMs, ops[0].readyIds, ops[0].connects).1] + AnswersOf(Apply(p, ops[0]), ops[1..])
  {
    hide AfterGet, Apply;
  }

  lemma {:induction false} StillGets(ops: seq<PoolOp>, readyIds: set<nat>)
    requires ops != [] && AreGets(ops, readyIds)
    ensures AreGets(ops[1..], readyIds) && ops[0].DoGet? && ops[0].readyIds == readyIds
    ensures ops[1..] != [] ==> ops[1].DoGet?
  {
  }

  /** Once a request has been let through to a ready connection the pool is not unhealthy. */
  lemma {:induction false} NeverBlockedAfter(p: Pool, op: PoolOp, now: nat)
    requires PoolInv(p) && op.DoGet? && !IsBlocked(p, op.nowMs)
    requires Distance(ReadyList(p.connections, op.readyIds), p.next, 0) < |p.connections|
    ensures !IsBlocked(Apply(p, op), now)
  {
    hide Distance, ReadyList, Apply, AfterGet;
    GetPicks(p, op);
  }

  /** The connections before place `to` with a ready sender. */
  ghost function ReadyBelow(conns: seq<Conn>, readyIds: set<nat>, to: nat): set<nat>
    requires to <= |conns|
  {
    set i: nat | i < to && conns[i].id in readyIds
  }

  lemma {:induction false} CountIsSize(conns: seq<Conn>, readyIds: set<nat>, to: nat)
    requires to <= |conns| && conns != [] && forall i :: 0 <= i < |conns| ==> conns[i].state == Active
    ensures Count(ReadyList(conns, readyIds), 0, to) == |ReadyBelow(conns, readyIds, to)|
  {
    if to != 0 {
      CountIsSize(conns, readyIds, to - 1);
      SmallMod(to - 1, |conns|);
      assert ReadyBelow(conns, readyIds, to)
        == ReadyBelow(conns, readyIds, to - 1) + if conns[to - 1].id in readyIds then {to - 1} else {};
    }
  }

  /**
   * In every run: while the same connections are ready and the pool is not blocked, as many
   * requests in a row as there are ready connections are answered with as many different ones,
   * each of them ready.
   */
  lemma {:induction false} RoundRobinInEveryRun(ops: seq<PoolOp>, gets: seq<PoolOp>, readyIds: set<nat>)
    requires AreGets(gets, readyIds) && (gets != [] ==> !IsBlocked(Run(ops), gets[0].nowMs))
    requires |gets| <= |ReadyBelow(Run(ops).connections, readyIds, |Run(ops).connections|)|
    ensures var answers := AnswersOf(Run(ops), gets);
      && (forall k :: 0 <= k < |gets| ==> answers[k].Sender? && answers[k].id in readyIds)
      && (forall k, l :: 0 <= k < l < |gets| ==> answers[k].id != answers[l].id)
  {
    if gets != [] {
      hide Run, AnswersOf, Picks, Count, IsBlocked;
      var p := Run(ops);
      var conns, ready := p.connections, ReadyList(p.connections, readyIds);
      PoolInvAlways(ops);
      NoneReady(conns, readyIds);
      CountIsSize(conns, readyIds, |conns|);
      SelectionsAreDistinct(ready, p.next, |gets|);
      AnswersArePicks(p, gets, readyIds);
      var picks := Picks(ready, p.next, |gets|);
      DistinctIds(conns, readyIds, picks);
      forall k | 0 <= k < |gets| ensures AnswersOf(p, gets)[k] == Sender(conns[picks[k]].id) {
        SendersAre(conns, picks, k);
      }
    }
  }

  lemma {:induction false} NoneReady(conns: seq<Conn>, readyIds: set<nat>)
    ensures conns == [] ==> ReadyBelow(conns, readyIds, |conns|) == {}
  {
  }

  lemma {:induction false} DistinctIds(conns: seq<Conn>, readyIds: set<nat>, picks: seq<nat>)
    requires forall i, j :: 0 <= i < j < |conns| ==> conns[i].id != conns[j].id
    requires forall k :: 0 <= k < |picks| ==> picks[k] < |conns| && ReadyList(conns, readyIds)[picks[k]]
    requires forall k, l :: 0 <= k < l < |picks| ==> picks[k] != picks[l]
    ensures forall k :: 0 <= k < |picks| ==> conns[picks[k]].id in readyIds
    ensures forall k, l :: 0 <= k < l < |picks| ==> conns[picks[k]].id != conns[picks[l]].id
  {
  }

  // ----- The limits of the ladder -----

  /** Five refusals of a degraded pool with room and a count of five block it, and not one sooner. */
  lemma {:induction false} RefusalsBlock(ops: seq<PoolOp>, f: nat, k: nat)
    requires var p := Run(ops); p.ladder.health == Degraded && p.ladder.failures == f && |p.connections| < p.ladder.max
    requires f + k <= 10
    ensures Run(ops + Refusals(k)) == Run(ops).(ladder :=
      Ladder(if k > 0 && f + k == 10 then Unhealthy else Degraded, f + k, Run(ops).ladder.max))
  {
    hide Run, Apply, PoolInv;
    PoolInvAlways(ops);
    if k == 0 {
      assert ops + Refusals(0) == ops;
    } else {
      RefusalsBlock(ops, f, k - 1);
      assert ops + Refusals(k) == (ops + Refusals(k - 1)) + [DoGet(0, {}, false)];
      RunStep(ops + Refusals(k - 1), DoGet(0, {}, false));
      PoolInvAlways(ops + Refusals(k - 1));
      RefusedWhileDegraded(Run(ops + Refusals(k - 1)));
    }
  }

  lemma {:induction false} RefusedWhileDegraded(p: Pool)
    requires PoolInv(p) && p.ladder.health == Degraded && |p.connections| < p.ladder.max
    ensures Apply(p, DoGet(0, {}, false)) == p.(ladder := Fail(p.ladder))
  {
    hide Live, ReadyList, Distance, Fail;
    LiveKeepsActive(p.connections);
    NobodyReady(p.connections, p.next, 0);
  }

  /**
   * A new pool: ten refused connects in a row block it, nine do not.  It stays blocked for exactly
   * 30 seconds; the request that comes after them is tried, and it takes ten refusals to block the
   * pool again.
   */
  lemma {:induction false} TenRefusalsBlockForThirtySeconds(nowMs: nat)
    ensures Run(Refusals(5) + Refusals(4)).ladder.health == Degraded
    ensures AfterGet(Run(Refusals(5) + Refusals(5)), nowMs, {}, false).1 ==
      if nowMs <= 30000 then BreakerOpen else ConnectFailed
    ensures 30000 < nowMs ==>
      AfterGet(Run(Refusals(5) + Refusals(5)), nowMs, {}, false).0.ladder == Ladder(Degraded, 1, 4)
  {
    hide Refusals, Run, PoolInv;
    assert [] + Refusals(5) == Refusals(5);
    RunStart();
    RefusalsCount([], 5);
    RefusalsBlock(Refusals(5), 5, 4);
    RefusalsBlock(Refusals(5), 5, 5);
    var p := Run(Refusals(5) + Refusals(5));
    assert p == Pool([], 0, Ladder(Unhealthy, 10, 4), 0, 0);
    NobodyReady([], 0, 0);
    assert Live([]) == [];
  }

  /** A success starts the count of failures again and ends a degradation. */
  lemma {:induction false} ConnectResets(ops: seq<PoolOp>, nowMs: nat)
    requires var p := Run(ops); !IsBlocked(p, nowMs) && |p.connections| < p.ladder.max
    ensures var (p, p') := (Run(ops), Run(ops + [DoGet(nowMs, {}, true)]));
      && p'.ladder == Ladder(Healthy, 0, p.ladder.max) && p'.lastSuccessMs == nowMs
      && p'.connections == p.connections + [Conn(p.created, Active)]
  {
    hide Run, Live, ReadyList, Distance;
    var p := Run(ops);
    RunStep(ops, DoGet(nowMs, {}, true));
    PoolInvAlways(ops);
    LiveKeepsActive(p.connections);
    NobodyReady(p.connections, p.next, 0);
  }

  /** Prewarming an empty pool opens as many connections as succeed before the first refusal, up to the capacity. */
  lemma {:induction false} PrewarmFills(ops: seq<PoolOp>, nowMs: nat, successes: nat)
    requires Run(ops).connections == []
    ensures var (p, p') := (Run(ops), Run(ops + [DoPrewarm(nowMs, successes)]));
      && |p'.connections| == (if successes < p.ladder.max then successes else p.ladder.max)
      && p'.ladder.failures == (
        if p.ladder.max <= successes then 0 else if successes == 0 then p.ladder.failures + 1 else 1)
      && (successes > 0 ==> p'.lastSuccessMs == nowMs)
  {
    hide Run;
    RunStep(ops, DoPrewarm(nowMs, successes));
    PoolInvAlways(ops);
  }
}
