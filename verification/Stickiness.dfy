/** What a change of the backend list or of one backend's health does to routed flows. */
module Stickiness {
  import opened Words
  import opened Maglev
  import opened Health
  import opened Selection

  // ----- Changing the backend list -----

  /** `after` is `before` with one backend appended. */
  ghost predicate IsAppend(before: Route, after: Route, newcomer: Backend) {
    && IsRoute(before) && IsRoute(after)
    && after.backends == before.backends + [newcomer]
  }

  lemma {:induction false} ProbeKeepsOrMovesToNewcomer(before: Route, after: Route, newcomer: Backend,
      flow: u64, attempt: nat)
    requires IsAppend(before, after, newcomer) && before.backends != []
    ensures Candidate(after, flow, attempt) == Candidate(before, flow, attempt)
      || Candidate(after, flow, attempt) == |before.backends|
    ensures Candidate(before, flow, attempt) < |before.backends|
  {
    var c := ((flow + attempt) % 0x1_0000_0000_0000_0000) % COMPACT_MAGLEV_SIZE;
    AppendMovesSlotsOnlyToNewcomer(before.backends, newcomer, before.table, after.table, c);
  }

  /** One of the attempts from..a probes a slot of the last backend. */
  ghost predicate ProbesLast(route: Route, flow: u64, from: nat, a: nat)
    requires |route.table| == COMPACT_MAGLEV_SIZE
  {
    exists t: nat | from <= t <= a :: Candidate(route, flow, t) == |route.backends| - 1
  }

  lemma {:induction false} ProbesLastStep(route: Route, flow: u64, from: nat, a: nat)
    requires |route.table| == COMPACT_MAGLEV_SIZE && from <= a
    ensures ProbesLast(route, flow, from, a)
      <==> Candidate(route, flow, from) == |route.backends| - 1 || ProbesLast(route, flow, from + 1, a)
  {
  }

  /** Before the attempt that decided the old route, only the newcomer can decide the new one. */
  lemma {:induction false} AppendedScan(before: Route, after: Route, newcomer: Backend,
      ok: Backend -> bool, flow: u64, from: nat, a: nat)
    requires IsAppend(before, after, newcomer)
    requires Decides(before, ok, flow, a) && from <= a < 10 * |before.backends|
    ensures Scan(after, ok, flow, from, 10 * |after.backends|) ==
      if ok(newcomer) && ProbesLast(after, flow, from, a) then Some(|before.backends|)
      else if Candidate(after, flow, a) != |before.backends| then Some(Candidate(before, flow, a))
      else Scan(after, ok, flow, a + 1, 10 * |after.backends|)
    decreases a - from
  {
    hide IsCompactTable, ProbesLast, Candidate;
    ProbeKeepsOrMovesToNewcomer(before, after, newcomer, flow, from);
    ProbesLastStep(after, flow, from, a);
    if from < a {
      AppendedScan(before, after, newcomer, ok, flow, from + 1, a);
      assert !IsOk(before, ok, Candidate(before, flow, from));
    } else {
      assert !ProbesLast(after, flow, a + 1, a) by { NoProbes(after, flow, a); }
    }
  }

  lemma {:induction false} NoProbes(route: Route, flow: u64, a: nat)
    requires |route.table| == COMPACT_MAGLEV_SIZE
    ensures !ProbesLast(route, flow, a + 1, a)
  {
  }

  /**
   * End to end, through table build, lookup and probe loop: appending an eligible backend
   * leaves every routed flow where it was or sends it to the newcomer.
   */
  lemma {:induction false} AppendIsSticky(before: Route, after: Route, newcomer: Backend,
      ok: Backend -> bool, flow: u64)
    requires IsAppend(before, after, newcomer) && ok(newcomer)
    requires Select(before, ok, flow).Some?
    ensures Select(after, ok, flow) == Select(before, ok, flow)
      || Select(after, ok, flow) == Some(|before.backends|)
  {
    var a := ScanWitness(before, ok, flow, 0, 10 * |before.backends|);
    AppendMovesExactly(before, after, newcomer, ok, flow, a);
  }

  /** Attempt `t` finds an eligible backend in the old table, and the newcomer did not take that slot. */
  ghost predicate Keeps(before: Route, after: Route, ok: Backend -> bool, flow: u64, t: nat)
    requires |before.table| == |after.table| == COMPACT_MAGLEV_SIZE
  {
    IsOk(before, ok, Candidate(before, flow, t)) && Candidate(after, flow, t) != |before.backends|
  }

  /** The first such attempt of from..limit, or `limit`. */
  ghost function FirstKept(before: Route, after: Route, ok: Backend -> bool, flow: u64, from: nat, limit: nat): (t: nat)
    requires |before.table| == |after.table| == COMPACT_MAGLEV_SIZE && from <= limit
    ensures from <= t <= limit && (t < limit ==> Keeps(before, after, ok, flow, t))
    ensures forall u: nat | from <= u < t :: !Keeps(before, after, ok, flow, u)
    decreases limit - from
  {
    if from == limit || Keeps(before, after, ok, flow, from) then from
    else FirstKept(before, after, ok, flow, from + 1, limit)
  }

  /** An ineligible newcomer only blocks slots: the scan stops at the first one it did not take. */
  lemma {:induction false} BlockedScan(before: Route, after: Route, newcomer: Backend,
      ok: Backend -> bool, flow: u64, from: nat, limit: nat)
    requires IsAppend(before, after, newcomer) && before.backends != [] && !ok(newcomer) && from <= limit
    ensures var t := FirstKept(before, after, ok, flow, from, limit);
      Scan(after, ok, flow, from, limit) == if t < limit then Some(Candidate(before, flow, t)) else None
    decreases limit - from
  {
    hide IsCompactTable, Candidate;
    ProbeKeepsOrMovesToNewcomer(before, after, newcomer, flow, from);
    if from < limit && !Keeps(before, after, ok, flow, from) {
      BlockedScan(before, after, newcomer, ok, flow, from + 1, limit);
    }
  }

  /**
   * Which flows move.  An eligible newcomer gets exactly the flows for which it took one of
   * the slots probed up to the deciding one.  An ineligible newcomer moves a flow to the owner of
   * the first slot, from the deciding one on, whose owner is eligible and which it did not take.
   */
  lemma {:induction false} AppendMovesExactly(before: Route, after: Route, newcomer: Backend,
      ok: Backend -> bool, flow: u64, a: nat)
    requires IsAppend(before, after, newcomer)
    requires Decides(before, ok, flow, a) && a < 10 * |before.backends|
    ensures ok(newcomer) ==>
      Select(after, ok, flow) ==
      if ProbesLast(after, flow, 0, a) then Some(|before.backends|) else Select(before, ok, flow)
    ensures !ok(newcomer) ==>
      var t := FirstKept(before, after, ok, flow, a, 10 * |after.backends|);
      Select(after, ok, flow) == if t < 10 * |after.backends| then Some(Candidate(before, flow, t)) else None
  {
    hide IsCompactTable, Candidate, FirstKept;
    ScanFinds(before, ok, flow, 0, 10 * |before.backends|, a);
    AppendedScan(before, after, newcomer, ok, flow, 0, a);
    if !ok(newcomer) {
      SkippedAttempts(before, after, newcomer, ok, flow, 0, a);
      BlockedScan(before, after, newcomer, ok, flow, a, 10 * |after.backends|);
    }
  }

  /** Attempts that found nothing before the append find nothing after it. */
  lemma {:induction false} SkippedAttempts(before: Route, after: Route, newcomer: Backend,
      ok: Backend -> bool, flow: u64, from: nat, a: nat)
    requires IsAppend(before, after, newcomer) && before.backends != [] && !ok(newcomer) && from <= a
    requires Decides(before, ok, flow, a) && a < 10 * |before.backends|
    ensures Scan(after, ok, flow, from, 10 * |after.backends|) == Scan(after, ok, flow, a, 10 * |after.backends|)
    decreases a - from
  {
    hide IsCompactTable, Candidate;
    if from < a {
      ProbeKeepsOrMovesToNewcomer(before, after, newcomer, flow, from);
      assert !IsOk(before, ok, Candidate(before, flow, from));
      SkippedAttempts(before, after, newcomer, ok, flow, from + 1, a);
    }
  }

  // ----- Removing the last backend -----

  /** Attempt `t` probed a slot of the removed backend, and the slot's heir is eligible. */
  ghost predicate Inherits(before: Route, after: Route, ok: Backend -> bool, flow: u64, t: nat)
    requires |before.table| == |after.table| == COMPACT_MAGLEV_SIZE
  {
    Candidate(before, flow, t) == |after.backends| && IsOk(after, ok, Candidate(after, flow, t))
  }

  /** The first such attempt of from..a, or `a`. */
  ghost function FirstHeir(before: Route, after: Route, ok: Backend -> bool, flow: u64, from: nat, a: nat): (t: nat)
    requires |before.table| == |after.table| == COMPACT_MAGLEV_SIZE && from <= a
    ensures from <= t <= a && (t < a ==> Inherits(before, after, ok, flow, t))
    ensures forall u: nat | from <= u < t :: !Inherits(before, after, ok, flow, u)
    decreases a - from
  {
    if from == a || Inherits(before, after, ok, flow, from) then from
    else FirstHeir(before, after, ok, flow, from + 1, a)
  }

  lemma {:induction false} HeirDecides(before: Route, after: Route, last: Backend,
      ok: Backend -> bool, flow: u64, a: nat)
    requires IsAppend(after, before, last) && after.backends != []
    requires Decides(before, ok, flow, a) && Candidate(before, flow, a) != |after.backends|
    ensures var t := FirstHeir(before, after, ok, flow, 0, a);
      Decides(after, ok, flow, t) && (t == a ==> Candidate(after, flow, a) == Candidate(before, flow, a))
  {
    hide IsCompactTable, Candidate;
    var t := FirstHeir(before, after, ok, flow, 0, a);
    ProbeKeepsOrMovesToNewcomer(after, before, last, flow, a);
    forall u: nat | u < t ensures !IsOk(after, ok, Candidate(after, flow, u)) {
      ProbeKeepsOrMovesToNewcomer(after, before, last, flow, u);
      assert !Inherits(before, after, ok, flow, u);
      assert !IsOk(before, ok, Candidate(before, flow, u));
    }
  }

  /**
   * Removing the last backend, eligible or not: a flow on another backend goes to the first
   * eligible heir of a slot it probed and skipped, and stays where it was if there is none; it is
   * dropped if that attempt is beyond the shorter probe limit.  Removing an eligible backend has
   * no such heirs.
   */
  lemma {:induction false} RemoveMovesExactly(before: Route, after: Route, last: Backend,
      ok: Backend -> bool, flow: u64, a: nat)
    requires IsAppend(after, before, last) && after.backends != []
    requires Decides(before, ok, flow, a) && a < 10 * |before.backends|
    requires Candidate(before, flow, a) != |after.backends|
    ensures var t := FirstHeir(before, after, ok, flow, 0, a);
      && Select(after, ok, flow) == (
        if 10 * |after.backends| <= t then None
        else if t == a then Select(before, ok, flow)
        else Some(Candidate(after, flow, t)))
      && (ok(last) ==> t == a)
  {
    hide IsCompactTable, Candidate;
    var t := FirstHeir(before, after, ok, flow, 0, a);
    ScanFinds(before, ok, flow, 0, 10 * |before.backends|, a);
    HeirDecides(before, after, last, ok, flow, a);
    ScanFinds(after, ok, flow, 0, 10 * |after.backends|, t);
    assert t < a ==> !IsOk(before, ok, Candidate(before, flow, t));
  }

  /** A flow of the removed backend itself moves on: nothing before its old attempt takes it. */
  lemma {:induction false} RemovedFlowsMoveOn(before: Route, after: Route, last: Backend,
      ok: Backend -> bool, flow: u64, a: nat)
    requires IsAppend(after, before, last) && after.backends != []
    requires Decides(before, ok, flow, a) && Candidate(before, flow, a) == |after.backends|
    ensures forall t: nat | Decides(after, ok, flow, t) :: a <= t
  {
    hide IsCompactTable, Candidate;
    forall t: nat | t < a ensures !IsOk(after, ok, Candidate(after, flow, t)) {
      ProbeKeepsOrMovesToNewcomer(after, before, last, flow, t);
      assert !IsOk(before, ok, Candidate(before, flow, t));
    }
  }

  // ----- Changing the health of one backend -----

  ghost predicate AgreeExcept(ok1: Backend -> bool, ok2: Backend -> bool, x: Backend) {
    forall b: Backend | b != x :: ok1(b) == ok2(b)
  }

  /** The index chosen is an entry for backend `x`. */
  predicate Chose(route: Route, r: Option<nat>, x: Backend) {
    r.Some? && r.value < |route.backends| && route.backends[r.value] == x
  }

  lemma {:induction false} HealthChangeScan(route: Route,
      ok1: Backend -> bool, ok2: Backend -> bool, x: Backend, flow: u64, from: nat, limit: nat)
    requires |route.table| == COMPACT_MAGLEV_SIZE && AgreeExcept(ok1, ok2, x)
    ensures var (r1, r2) := (Scan(route, ok1, flow, from, limit), Scan(route, ok2, flow, from, limit));
      (!Chose(route, r1, x) ==> r2 == r1 || (ok2(x) && !ok1(x) && Chose(route, r2, x)))
    decreases limit - from
  {
    if from < limit { HealthChangeScan(route, ok1, ok2, x, flow, from + 1, limit); }
  }

  /** If only `x` stops being eligible, every flow on another backend stays put. */
  lemma {:induction false} LosingOneBackend(route: Route,
      ok1: Backend -> bool, ok2: Backend -> bool, x: Backend, flow: u64)
    requires IsRoute(route) && AgreeExcept(ok1, ok2, x) && (ok2(x) ==> ok1(x))
    requires !Chose(route, Select(route, ok1, flow), x)
    ensures Select(route, ok2, flow) == Select(route, ok1, flow)
  {
    HealthChangeScan(route, ok1, ok2, x, flow, 0, 10 * |route.backends|);
  }

  /** If only `x` becomes eligible, every flow stays put or moves to `x`. */
  lemma {:induction false} RegainingOneBackend(route: Route,
      ok1: Backend -> bool, ok2: Backend -> bool, x: Backend, flow: u64)
    requires IsRoute(route) && AgreeExcept(ok1, ok2, x) && !ok1(x)
    ensures Select(route, ok2, flow) == Select(route, ok1, flow) || Chose(route, Select(route, ok2, flow), x)
  {
    HealthChangeScan(route, ok1, ok2, x, flow, 0, 10 * |route.backends|);
    ScanFindsOk(route, ok1, flow, 0, 10 * |route.backends|);
  }

  lemma {:induction false} SameEligibility(route: Route,
      ok1: Backend -> bool, ok2: Backend -> bool, flow: u64, from: nat, limit: nat)
    requires |route.table| == COMPACT_MAGLEV_SIZE
    requires forall i :: 0 <= i < |route.backends| ==> ok1(route.backends[i]) == ok2(route.backends[i])
    ensures Scan(route, ok1, flow, from, limit) == Scan(route, ok2, flow, from, limit)
    decreases limit - from
  {
    if from < limit { SameEligibility(route, ok1, ok2, flow, from + 1, limit); }
  }

  /** The two probe loops choose alike when no active check reports a backend of the route down. */
  lemma {:induction false} MaskAndSetAgree(route: Route, h: Snapshot, flow: u64)
    requires IsRoute(route)
    requires forall b | b in route.backends && b in h.active :: h.active[b]
    ensures Select(route, EligibleIn(h), flow)
      == Select(route, EligibleIn(h.(active := map[])), flow)
  {
    SameEligibility(route, EligibleIn(h), EligibleIn(h.(active := map[])),
      flow, 0, 10 * |route.backends|);
  }

  // ----- The router's health record -----

  class HealthStore {
    var windows: map<Backend, seq<bool>>
    var draining: map<Backend, nat>

    ghost predicate Valid()
      reads this
    {
      forall b :: b in windows ==> |windows[b]| <= WINDOW_SIZE
    }

    constructor ()
      ensures Valid() && windows == map[] && draining == map[]
    {
      windows, draining := map[], map[];
    }

    method DrainBackend(b: Backend, deadline: nat)
      modifies `draining
      ensures draining == old(draining)[b := deadline]
    {
      draining := draining[b := deadline];
    }

    method CleanupExpired(now: nat)
      modifies `draining
      ensures draining.Keys <= old(draining).Keys
      ensures forall b :: b in old(draining) ==> (b in draining <==> now < old(draining)[b])
      ensures forall b :: b in draining ==> draining[b] == old(draining)[b]
    {
      draining := map b | b in draining && now < draining[b] :: draining[b];
    }

    method RecordBackendResponse(b: Backend, status: u16)
      requires Valid()
      modifies `windows
      ensures Valid() && windows == Recorded(old(windows), Response(b, status))
    {
      var health := new BackendHealth(if b in windows then windows[b] else []);
      health.RecordResponse(status);
      windows := windows[b := health.window];
    }
  }

  /** One response of `x` moves no flow between two other backends. */
  lemma {:induction false} ResponseDisturbsOnlyItsBackend(route: Route, run: seq<Response>, last: Response,
      draining: map<Backend, nat>, active: map<Backend, bool>, flow: u64)
    requires IsRoute(route)
    ensures var h1 := Snapshot(Windows(run), draining, active);
      var h2 := Snapshot(Windows(run + [last]), draining, active);
      var (r1, r2) := (Select(route, EligibleIn(h1), flow), Select(route, EligibleIn(h2), flow));
      r1 == r2 || Chose(route, r1, last.backend) || Chose(route, r2, last.backend)
  {
    var h1, h2 := Snapshot(Windows(run), draining, active), Snapshot(Windows(run + [last]), draining, active);
    assert (run + [last])[..|run|] == run;
    HealthChangeScan(route, EligibleIn(h1), EligibleIn(h2), last.backend, flow, 0, 10 * |route.backends|);
  }

  /** Draining `x` moves exactly the flows that were on `x`. */
  lemma {:induction false} DrainMovesOnlyItsFlows(route: Route, h: Snapshot, x: Backend, deadline: nat, flow: u64)
    requires IsRoute(route)
    ensures var h2 := h.(draining := h.draining[x := deadline]);
      var (r1, r2) := (Select(route, EligibleIn(h), flow), Select(route, EligibleIn(h2), flow));
      !Chose(route, r2, x) && (r1 == r2 <==> !Chose(route, r1, x))
  {
    var h2 := h.(draining := h.draining[x := deadline]);
    HealthChangeScan(route, EligibleIn(h), EligibleIn(h2), x, flow, 0, 10 * |route.backends|);
    ScanFindsOk(route, EligibleIn(h2), flow, 0, 10 * |route.backends|);
  }
}
