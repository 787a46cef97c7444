/**
 * Backend selection: the probe loops over a route's compact table.
 *
 * The specification is a plain scan of 10 * n probed slots for the first eligible
 * backend; the loops add a record of what was tried and an early exit.
 */
module Selection {
  import opened Words
  import opened Maglev
  import opened Health
  import NumberTheory

  datatype Route = Route(backends: seq<Backend>, table: seq<byte>)

  /** What add_route establishes: at most 32 backends and the table built from them. */
  ghost predicate IsRoute(route: Route) {
    && |route.backends| <= MAX_BACKENDS && |route.table| == COMPACT_MAGLEV_SIZE
    && IsCompactTable(route.backends, route.table)
  }

  datatype Snapshot = Snapshot(
    windows: map<Backend, seq<bool>>,  // passive health
    draining: map<Backend, nat>,       // drain deadlines
    active: map<Backend, bool>)        // results of active TCP probes

  predicate IsEligible(h: Snapshot, b: Backend) {
    && PassivelyHealthy(h.windows, b)
    && (b in h.active ==> h.active[b])
    && b !in h.draining
  }

  ghost function EligibleIn(h: Snapshot): Backend -> bool {
    b => IsEligible(h, b)
  }

  // ----- The plain scan -----

  function LookupCompact(flow: u64, table: seq<byte>): byte
    requires table == [] || |table| == COMPACT_MAGLEV_SIZE
  {
    if table == [] then 0 else table[flow % COMPACT_MAGLEV_SIZE]
  }

  /** The backend index behind the slot probed by `attempt`. */
  function Candidate(route: Route, flow: u64, attempt: nat): nat
    requires |route.table| == COMPACT_MAGLEV_SIZE
  {
    LookupCompact((flow + attempt) % 0x1_0000_0000_0000_0000, route.table)
  }

  lemma {:induction false} CandidateInRange(route: Route, flow: u64, attempt: nat)
    requires IsRoute(route) && route.backends != []
    ensures Candidate(route, flow, attempt) < |route.backends|
  {
  }

  ghost function IsOk(route: Route, ok: Backend -> bool, i: nat): bool {
    i < |route.backends| && ok(route.backends[i])
  }

  /** The first eligible candidate of the attempts from..limit. */
  ghost function Scan(route: Route, ok: Backend -> bool, flow: u64, from: nat, limit: nat): (r: Option<nat>)
    requires |route.table| == COMPACT_MAGLEV_SIZE
    decreases limit - from
  {
    if limit <= from then None
    else if IsOk(route, ok, Candidate(route, flow, from)) then Some(Candidate(route, flow, from))
    else Scan(route, ok, flow, from + 1, limit)
  }

  ghost function Select(route: Route, ok: Backend -> bool, flow: u64): (r: Option<nat>)
    requires |route.table| == COMPACT_MAGLEV_SIZE
  {
    Scan(route, ok, flow, 0, 10 * |route.backends|)
  }

  /** The scan in terms of attempts: the answer is the candidate of the first eligible one. */
  ghost predicate Decides(route: Route, ok: Backend -> bool, flow: u64, attempt: nat)
    requires |route.table| == COMPACT_MAGLEV_SIZE
  {
    && IsOk(route, ok, Candidate(route, flow, attempt))
    && forall a: nat | a < attempt :: !IsOk(route, ok, Candidate(route, flow, a))
  }

  lemma {:induction false} ScanFinds(route: Route, ok: Backend -> bool, flow: u64, from: nat, limit: nat, attempt: nat)
    requires |route.table| == COMPACT_MAGLEV_SIZE
    requires Decides(route, ok, flow, attempt) && from <= attempt
    ensures Scan(route, ok, flow, from, limit) ==
      if attempt < limit then Some(Candidate(route, flow, attempt)) else None
    decreases limit - from
  {
    if from < limit && from < attempt { ScanFinds(route, ok, flow, from + 1, limit, attempt); }
  }

  lemma {:induction false} ScanWitness(route: Route, ok: Backend -> bool, flow: u64, from: nat, limit: nat)
    returns (attempt: nat)
    requires |route.table| == COMPACT_MAGLEV_SIZE
    requires forall a: nat | a < from :: !IsOk(route, ok, Candidate(route, flow, a))
    requires Scan(route, ok, flow, from, limit).Some?
    ensures Decides(route, ok, flow, attempt) && from <= attempt < limit
    ensures Scan(route, ok, flow, from, limit) == Some(Candidate(route, flow, attempt))
    decreases limit - from
  {
    if IsOk(route, ok, Candidate(route, flow, from)) {
      attempt := from;
    } else {
      attempt := ScanWitness(route, ok, flow, from + 1, limit);
    }
  }

  lemma {:induction false} ScanFindsOk(route: Route, ok: Backend -> bool, flow: u64, from: nat, limit: nat)
    requires |route.table| == COMPACT_MAGLEV_SIZE
    ensures var r := Scan(route, ok, flow, from, limit); r.Some? ==> IsOk(route, ok, r.value)
    decreases limit - from
  {
    if from < limit { ScanFindsOk(route, ok, flow, from + 1, limit); }
  }

  // ----- The probe loops -----

  function ByteBits(i: byte): bv8 {
    i as bv8
  }

  function Bit(i: bv8): bv32 {
    (1 as bv32) << (i & 31)
  }

  predicate HasBit(mask: bv32, i: bv8) {
    mask & Bit(i) != 0
  }

  function WithBit(mask: bv32, i: bv8): bv32 {
    mask | Bit(i)
  }

  lemma {:induction false} BitIsSet(mask: bv32, i: bv8, j: bv8)
    requires i < 32 && j < 32
    ensures HasBit(WithBit(mask, i), j) <==> i == j || HasBit(mask, j)
  {
    hide Bit;
    BitsAreIndependent(mask, i, j);
    assert WithBit(mask, i) == mask | Bit(i);
  }

  lemma {:induction false} BitsAreIndependent(mask: bv32, i: bv8, j: bv8)
    requires i < 32 && j < 32
    ensures (mask | Bit(i)) & Bit(j) != 0 <==> i == j || mask & Bit(j) != 0
  {
  }

  lemma {:induction false} SmallBytes(i: nat, j: nat)
    requires i < 32 && j < 32
    ensures ByteBits(i) < 32 && ByteBits(j) < 32
    ensures ByteBits(i) == ByteBits(j) <==> i == j
  {
    assert ByteBits(i) as nat == i && ByteBits(j) as nat == j;
  }

  /** The mask has exactly the bits of `tried`. */
  ghost predicate IsMask(mask: bv32, tried: set<nat>) {
    forall i: nat | i < 32 :: HasBit(mask, ByteBits(i)) <==> i in tried
  }

  lemma {:induction false} MaskMeans(mask: bv32, tried: set<nat>, i: nat)
    requires IsMask(mask, tried) && i < 32
    ensures HasBit(mask, ByteBits(i)) <==> i in tried
    ensures IsMask(WithBit(mask, ByteBits(i)), tried + {i})
  {
    hide HasBit, WithBit, ByteBits;
    forall j: nat | j < 32 ensures HasBit(WithBit(mask, ByteBits(i)), ByteBits(j)) <==> j in tried + {i} {
      SmallBytes(i, j);
      BitIsSet(mask, ByteBits(i), ByteBits(j));
    }
  }

  lemma {:induction false} EmptyMask()
    ensures IsMask(0, {})
  {
    forall j: nat | j < 32 ensures !HasBit(0, ByteBits(j)) { ZeroAnd(Bit(ByteBits(j))); }
  }

  lemma {:induction false} ZeroAnd(x: bv32)
    ensures 0 & x == 0
  {
  }

  /** Once every backend was tried and refused, the rest of the scan finds nothing. */
  lemma {:induction false} NothingLeft(route: Route,
      ok: Backend -> bool, tried: set<nat>, flow: u64, from: nat, limit: nat)
    requires |route.table| == COMPACT_MAGLEV_SIZE
    requires tried <= NumberTheory.Range(|route.backends|) && |tried| == |route.backends|
    requires forall i: nat | i in tried :: !IsOk(route, ok, i)
    ensures Scan(route, ok, flow, from, limit) == None
    decreases limit - from
  {
    NumberTheory.FullSubset(tried, NumberTheory.Range(|route.backends|));
    if from < limit { NothingLeft(route, ok, tried, flow, from + 1, limit); }
  }

  /** select_backend's loop: a 32-bit mask of tried indices. */
  method ProbeWithMask(route: Route, h: Snapshot, flow: u64) returns (found: Option<nat>)
    requires IsRoute(route)
    ensures found == Select(route, EligibleIn(h), flow)
  {
    hide IsCompactTable, HasBit, WithBit, ByteBits, IsMask, IsEligible, LookupCompact;
    ghost var ok := EligibleIn(h);
    var triedMask: bv32, triedCount := 0, 0;
    ghost var tried: set<nat> := {};
    EmptyMask();
    var n := |route.backends|;
    for attempt := 0 to n * 10
      invariant IsMask(triedMask, tried) && triedCount == |tried| && tried <= NumberTheory.Range(n)
      invariant forall i: nat | i in tried :: !IsOk(route, ok, i)
      invariant Select(route, ok, flow) == Scan(route, ok, flow, attempt, 10 * n)
    {
      CandidateInRange(route, flow, attempt);
      var idx := LookupCompact((flow + attempt) % 0x1_0000_0000_0000_0000, route.table);
      MaskMeans(triedMask, tried, idx);
      if HasBit(triedMask, ByteBits(idx)) {
        continue;
      }
      triedMask, triedCount := WithBit(triedMask, ByteBits(idx)), triedCount + 1;
      tried := tried + {idx};
      var backend := route.backends[idx];
      if !IsEligible(h, backend) {
        if triedCount == n {
          NothingLeft(route, ok, tried, flow, attempt + 1, 10 * n);
          break;
        }
        continue;
      }
      return Some(idx);
    }
    return None;
  }

  /** select_backend_with_headers' loop: a set of tried indices and no active checks. */
  method ProbeWithSet(route: Route, h: Snapshot, flow: u64) returns (found: Option<nat>)
    requires IsRoute(route)
    ensures found == Select(route, EligibleIn(h.(active := map[])), flow)
  {
    hide IsCompactTable;
    ghost var ok := EligibleIn(h.(active := map[]));
    var tried: set<nat> := {};
    var n := |route.backends|;
    for attempt := 0 to n * 10
      invariant tried <= NumberTheory.Range(n)
      invariant forall i: nat | i in tried :: !IsOk(route, ok, i)
      invariant Select(route, ok, flow) == Scan(route, ok, flow, attempt, 10 * n)
    {
      CandidateInRange(route, flow, attempt);
      var idx := LookupCompact((flow + attempt) % 0x1_0000_0000_0000_0000, route.table);
      if idx in tried {
        continue;
      }
      tried := tried + {idx};
      var backend := route.backends[idx];
      var isHealthy := PassivelyHealthy(h.windows, backend);
      var isDraining := backend in h.draining;
      if !isHealthy || isDraining {
        if |tried| == n {
          NothingLeft(route, ok, tried, flow, attempt + 1, 10 * n);
          break;
        }
        continue;
      }
      return Some(idx);
    }
    return None;
  }

  // ----- What the answer means on the plan -----

  /** Attempt `a` of a flow probes a slot that backend `i` owns, in terms of the backend list alone. */
  ghost predicate Probes(bs: seq<Backend>, flow: u64, a: nat, i: nat)
    requires |bs| <= MAX_BACKENDS
  {
    Owns(CompactPlan(bs), ((flow + a) % 0x1_0000_0000_0000_0000) % 4099, i)
  }

  /** Every backend an attempt before `limit` probes is ineligible. */
  ghost predicate RefusedBefore(bs: seq<Backend>, ok: Backend -> bool, flow: u64, limit: nat)
    requires |bs| <= MAX_BACKENDS
  {
    forall a: nat, i: nat | a < limit && i < |bs| && Probes(bs, flow, a, i) :: !ok(bs[i])
  }

  /** The first eligible backend that the flow's first 10 * n attempts probe, or none. */
  ghost predicate Answers(bs: seq<Backend>, ok: Backend -> bool, flow: u64, answer: Option<nat>)
    requires |bs| <= MAX_BACKENDS
  {
    match answer
    case None => RefusedBefore(bs, ok, flow, 10 * |bs|)
    case Some(i) =>
      && i < |bs| && ok(bs[i])
      && exists a: nat :: a < 10 * |bs| && Probes(bs, flow, a, i) && RefusedBefore(bs, ok, flow, a)
  }

  lemma {:induction false} CandidateOwns(route: Route, flow: u64, a: nat)
    requires IsRoute(route) && route.backends != []
    ensures Candidate(route, flow, a) < |route.backends| && Probes(route.backends, flow, a, Candidate(route, flow, a))
    ensures forall i: nat | Probes(route.backends, flow, a, i) :: i == Candidate(route, flow, a)
  {
    hide Owns, CompactPlan;
    CandidateInRange(route, flow, a);
    forall i: nat | Probes(route.backends, flow, a, i) ensures i == Candidate(route, flow, a) {
      OwnerIsUnique(CompactPlan(route.backends),
        ((flow + a) % 0x1_0000_0000_0000_0000) % 4099, i, Candidate(route, flow, a));
    }
  }

  lemma {:induction false} RefusedScan(route: Route, ok: Backend -> bool, flow: u64, limit: nat)
    requires IsRoute(route) && forall a: nat | a < limit :: !IsOk(route, ok, Candidate(route, flow, a))
    ensures RefusedBefore(route.backends, ok, flow, limit)
  {
    hide Probes, Candidate, IsCompactTable;
    forall a: nat, i: nat | a < limit && i < |route.backends| && Probes(route.backends, flow, a, i)
      ensures !ok(route.backends[i])
    {
      CandidateOwns(route, flow, a);
    }
  }

  lemma {:induction false} ScanFails(route: Route, ok: Backend -> bool, flow: u64, from: nat, limit: nat)
    requires |route.table| == COMPACT_MAGLEV_SIZE && Scan(route, ok, flow, from, limit) == None
    ensures forall a: nat | from <= a < limit :: !IsOk(route, ok, Candidate(route, flow, a))
    decreases limit - from
  {
    hide Candidate;
    if from < limit { ScanFails(route, ok, flow, from + 1, limit); }
  }

  /** Selection answers with the owner of the first slot probed whose owner is eligible. */
  lemma {:induction false} SelectAnswers(route: Route, ok: Backend -> bool, flow: u64)
    requires IsRoute(route)
    ensures Answers(route.backends, ok, flow, Select(route, ok, flow))
  {
    hide Probes, Candidate, IsCompactTable, RefusedBefore;
    var limit := 10 * |route.backends|;
    if Select(route, ok, flow) == None {
      ScanFails(route, ok, flow, 0, limit);
      RefusedScan(route, ok, flow, limit);
    } else {
      var a := ScanWitness(route, ok, flow, 0, limit);
      RefusedScan(route, ok, flow, a);
      CandidateOwns(route, flow, a);
    }
  }

  /** There is only one such answer. */
  lemma {:induction false} AnswerIsUnique(route: Route, ok: Backend -> bool, flow: u64, x: Option<nat>, y: Option<nat>)
    requires IsRoute(route)
    requires Answers(route.backends, ok, flow, x) && Answers(route.backends, ok, flow, y)
    ensures x == y
  {
    hide Probes, Candidate, IsCompactTable;
    var bs := route.backends;
    if x.Some? && y.Some? {
      var a: nat :| a < 10 * |bs| && Probes(bs, flow, a, x.value) && RefusedBefore(bs, ok, flow, a);
      var b: nat :| b < 10 * |bs| && Probes(bs, flow, b, y.value) && RefusedBefore(bs, ok, flow, b);
      CandidateOwns(route, flow, a);
      assert a == b;
    }
  }

  // ----- Shares of the traffic -----

  /** The flows from..from + 4098 that go to backend `i`. */
  ghost function FlowsTo(route: Route, ok: Backend -> bool, from: nat, i: nat): set<nat>
    requires |route.table| == COMPACT_MAGLEV_SIZE && from + 4098 < 0x1_0000_0000_0000_0000
  {
    set flow: nat | from <= flow < from + 4099 && Select(route, ok, flow) == Some(i)
  }

  ghost function SlotsOf(bs: seq<Backend>, i: nat): set<nat>
    requires |bs| <= MAX_BACKENDS
  {
    set c: nat | c < 4099 && Owns(CompactPlan(bs), c, i)
  }

  /** With every backend eligible a flow goes to the owner of its own slot. */
  lemma {:induction false} FirstSlotDecides(route: Route, ok: Backend -> bool, flow: u64, i: nat)
    requires IsRoute(route) && forall b | b in route.backends :: ok(b)
    ensures Select(route, ok, flow) == Some(i) <==> Owns(CompactPlan(route.backends), flow % 4099, i)
  {
    hide Owns, CompactPlan, Candidate, IsCompactTable;
    var bs := route.backends;
    if bs == [] {
      NobodyOwns(flow % 4099, i);
    } else {
      CandidateOwns(route, flow, 0);
      assert Probes(bs, flow, 0, Candidate(route, flow, 0));
      assert Probes(bs, flow, 0, i) <==> Owns(CompactPlan(bs), flow % 4099, i);
      assert bs[Candidate(route, flow, 0)] in bs;
    }
  }

  lemma {:induction false} NobodyOwns(c: nat, i: nat)
    ensures !Owns(CompactPlan([]), c, i)
  {
  }

  /**
   * With every backend eligible, any 4099 flows in a row give each backend exactly as many
   * flows as it owns slots.
   */
  lemma {:induction false} TrafficFollowsSlots(route: Route, ok: Backend -> bool, from: nat, i: nat)
    requires IsRoute(route) && from + 4098 < 0x1_0000_0000_0000_0000
    requires forall b | b in route.backends :: ok(b)
    ensures |FlowsTo(route, ok, from, i)| == |SlotsOf(route.backends, i)|
  {
    hide FlowsTo, SlotsOf;
    NoMoreFlows(route, ok, from, i);
    NoMoreSlots(route, ok, from, i);
  }

  lemma {:induction false} NoMoreFlows(route: Route, ok: Backend -> bool, from: nat, i: nat)
    requires IsRoute(route) && from + 4098 < 0x1_0000_0000_0000_0000
    requires forall b | b in route.backends :: ok(b)
    ensures |FlowsTo(route, ok, from, i)| <= |SlotsOf(route.backends, i)|
  {
    hide Owns, CompactPlan, Select, IsCompactTable;
    var (flows, slots) := (FlowsTo(route, ok, from, i), SlotsOf(route.backends, i));
    var slot := (flow: nat) => flow % 4099;
    forall flow | flow in flows ensures slot(flow) in slots { FirstSlotDecides(route, ok, flow, i); }
    forall x, y | x in flows && y in flows && slot(x) == slot(y) ensures x == y { LapIsInjective(from, x, y); }
    NumberTheory.InjectionSize(flows, slots, slot);
  }

  lemma {:induction false} NoMoreSlots(route: Route, ok: Backend -> bool, from: nat, i: nat)
    requires IsRoute(route) && from + 4098 < 0x1_0000_0000_0000_0000
    requires forall b | b in route.backends :: ok(b)
    ensures |SlotsOf(route.backends, i)| <= |FlowsTo(route, ok, from, i)|
  {
    hide Owns, CompactPlan, Select, IsCompactTable, NextFlow;
    var (flows, slots) := (FlowsTo(route, ok, from, i), SlotsOf(route.backends, i));
    var next := (c: nat) => NextFlow(from, c);
    forall c | c in slots ensures next(c) in flows && next(c) % 4099 == c {
      ReachesSlot(from, c);
      FirstSlotDecides(route, ok, NextFlow(from, c), i);
    }
    NumberTheory.InjectionSize(slots, flows, next);
  }

  /** The first flow from `from` on whose slot is `c`. */
  function NextFlow(from: nat, c: nat): nat {
    from + (c + 4099 - from % 4099) % 4099
  }

  lemma {:induction false} ReachesSlot(from: nat, c: nat)
    requires c < 4099
    ensures from <= NextFlow(from, c) < from + 4099 && NextFlow(from, c) % 4099 == c
  {
  }

  lemma {:induction false} LapIsInjective(from: nat, x: nat, y: nat)
    requires from <= x < from + 4099 && from <= y < from + 4099 && x % 4099 == y % 4099
    ensures x == y
  {
  }

  // ----- Who is eligible -----

  /** Eligible, in terms of what was observed: statuses, drains and active checks. */
  ghost predicate IsServing(run: seq<Response>, draining: map<Backend, nat>, active: map<Backend, bool>, b: Backend) {
    && 2 * |FailedOf(run, b)| <= |RecentOf(run, b)|
    && b !in draining
    && !(b in active && !active[b])
  }

  ghost function ServingIn(run: seq<Response>, draining: map<Backend, nat>, active: map<Backend, bool>)
    : Backend -> bool
  {
    b => IsServing(run, draining, active, b)
  }

  lemma {:induction false} EligibleIffServing(run: seq<Response>, draining: map<Backend, nat>,
      active: map<Backend, bool>, b: Backend)
    ensures IsEligible(Snapshot(Windows(run), draining, active), b) <==> IsServing(run, draining, active, b)
  {
    HealthOnStatuses(run, b);
  }

  /**
   * After any responses, drains and active checks, selection answers with the owner of the first
   * slot probed whose owner has at most half failures among its last 100 responses, is not
   * draining and is not reported down.
   */
  lemma {:induction false} SelectsServing(route: Route, run: seq<Response>, draining: map<Backend, nat>,
      active: map<Backend, bool>, flow: u64)
    requires IsRoute(route)
    ensures Answers(route.backends, ServingIn(run, draining, active), flow,
      Select(route, EligibleIn(Snapshot(Windows(run), draining, active)), flow))
  {
    hide IsEligible, IsServing, Select, Probes, IsCompactTable;
    var h := Snapshot(Windows(run), draining, active);
    forall b ensures EligibleIn(h)(b) == ServingIn(run, draining, active)(b) {
      EligibleIffServing(run, draining, active, b);
    }
    SelectAnswers(route, EligibleIn(h), flow);
  }
}
